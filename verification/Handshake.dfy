/** The stop-the-world handshake (collection.rs) as a machine of atomic, sequentially consistent steps.

  Any number of mutator threads may call mmtk_block_thread_for_gc; one GC thread alternates between
  stop_all_mutators and resume_mutators. The shared state is the flags BLOCK_FOR_GC and
  WORLD_HAS_STOPPED and the lock of the condition variable. A waiting thread may wake at any time,
  so notified and spurious wakeups are the same step. */
module Handshake {

  import opened Wrappers

  /** Where a mutator stands in mmtk_block_thread_for_gc. */
  datatype MutatorPc =
    | Outside
    | Locking    // BLOCK_FOR_GC is set, the lock is not yet taken
    | Raising    // the lock is held, WORLD_HAS_STOPPED is not yet set
    | Testing    // about to test the loop condition, holding the lock
    | Waiting    // in the condition variable's wait, the lock released
    | Leaving    // out of the loop, still holding the lock

  /** Where the GC thread stands. */
  datatype GcPc =
    | Spinning      // in the loop of stop_all_mutators
    | Stopped       // has seen WORLD_HAS_STOPPED, up to the first store of resume_mutators
    | ClearedBlock  // between the two stores of resume_mutators
    | ClearedWorld  // about to notify

  datatype State = State(block: bool, world: bool, holder: Option<nat>, mutators: seq<MutatorPc>, gc: GcPc)

  datatype Step =
    | Enter(t: nat)
    | Lock(t: nat)
    | Raise(t: nat)
    | Test(t: nat)
    | Wake(t: nat)
    | Leave(t: nat)
    | SeeStopped
    | ClearBlock
    | ClearWorld
    | Notify

  function Initial(threads: nat): State {
    State(false, false, None, seq(threads, _ => Outside), Spinning)
  }

  predicate At(s: State, t: nat, pc: MutatorPc) {
    t < |s.mutators| && s.mutators[t] == pc
  }

  predicate InLoop(s: State, t: nat) {
    At(s, t, Testing) || At(s, t, Waiting)
  }

  /** The state after a step, or None when the step cannot be taken. */
  function Apply(s: State, step: Step): Option<State> {
    match step
    case Enter(t) =>
      if At(s, t, Outside) then Some(s.(block := true, mutators := s.mutators[t := Locking])) else None
    case Lock(t) =>
      if At(s, t, Locking) && s.holder == None then
        Some(s.(holder := Some(t), mutators := s.mutators[t := Raising]))
      else None
    case Raise(t) =>
      if At(s, t, Raising) then Some(s.(world := true, mutators := s.mutators[t := Testing])) else None
    case Test(t) =>
      if !At(s, t, Testing) then None
      else if s.block then Some(s.(holder := None, mutators := s.mutators[t := Waiting]))
      else Some(s.(mutators := s.mutators[t := Leaving]))
    case Wake(t) =>
      if At(s, t, Waiting) && s.holder == None then
        Some(s.(holder := Some(t), mutators := s.mutators[t := Testing]))
      else None
    case Leave(t) =>
      if At(s, t, Leaving) then Some(s.(holder := None, mutators := s.mutators[t := Outside])) else None
    case SeeStopped =>
      if s.gc == Spinning && s.world then Some(s.(gc := Stopped)) else None
    case ClearBlock =>
      if s.gc == Stopped then Some(s.(block := false, gc := ClearedBlock)) else None
    case ClearWorld =>
      if s.gc == ClearedBlock then Some(s.(world := false, gc := ClearedWorld)) else None
    case Notify =>
      if s.gc == ClearedWorld then Some(s.(gc := Spinning)) else None
  }

  function Run(s: State, steps: seq<Step>): Option<State>
    decreases |steps|
  {
    if steps == [] then Some(s)
    else
      match Apply(s, steps[0])
      case None => None
      case Some(next) => Run(next, steps[1..])
  }

  // What the steps do, flag by flag and thread by thread

  /** BLOCK_FOR_GC goes up only when a mutator enters and down only in resume_mutators; WORLD_HAS_STOPPED goes up
    only when a mutator that holds the lock raises it, and down only in resume_mutators, after the other. */
  lemma FlagSteps(s: State, step: Step)
    requires Apply(s, step).Some?
    ensures var next := Apply(s, step).value;
            && (step.Enter? ==> next.block) && (step == ClearBlock ==> !next.block)
            && (!step.Enter? && step != ClearBlock ==> next.block == s.block)
            && (step.Raise? ==> next.world && At(s, step.t, Raising)) && (step == ClearWorld ==> !next.world)
            && (!step.Raise? && step != ClearWorld ==> next.world == s.world)
            && (next.gc != s.gc ==> (s.gc == Spinning && s.world && next.gc == Stopped)
                                    || (s.gc == Stopped && !next.block && next.gc == ClearedBlock)
                                    || (s.gc == ClearedBlock && !next.world && next.gc == ClearedWorld)
                                    || (s.gc == ClearedWorld && next.gc == Spinning))
  {
  }

  /** A mutator goes through the call in one order: it announces itself, takes the lock while it is free, raises
    the flag, and waits and wakes again until it finds BLOCK_FOR_GC down; only then does it leave. */
  lemma MutatorSteps(s: State, step: Step, t: nat)
    requires Apply(s, step).Some? && t < |s.mutators|
    ensures var next := Apply(s, step).value;
            && |next.mutators| == |s.mutators|
            && var was, now := s.mutators[t], next.mutators[t];
            was == now
            || (was == Outside && now == Locking)
            || (was == Locking && now == Raising && s.holder == None && next.holder == Some(t))
            || (was == Raising && now == Testing && next.world)
            || (was == Testing && now == Waiting && s.block && next.holder == None)
            || (was == Waiting && now == Testing && s.holder == None && next.holder == Some(t))
            || (was == Testing && now == Leaving && !s.block)
            || (was == Leaving && now == Outside && next.holder == None)
  {
  }

  /** The collector may work: both flags are up and some mutator is inside its wait loop. */
  ghost predicate Safe(s: State) {
    s.gc == Stopped ==> s.block && s.world && exists t: nat :: InLoop(s, t)
  }

  // Safety for any number of blocking threads

  /** No mutator is between announcing itself and raising WORLD_HAS_STOPPED. */
  predicate Quiet(s: State) {
    forall t :: 0 <= t < |s.mutators| ==> s.mutators[t] !in {Locking, Raising}
  }

  /** Every ClearBlock of the run is taken while the mutators are quiet. */
  ghost predicate QuietThroughout(s: State, steps: seq<Step>)
    decreases |steps|
  {
    steps != [] ==>
      && (steps[0] == ClearBlock ==> Quiet(s))
      && match Apply(s, steps[0])
         case None => true
         case Some(next) => QuietThroughout(next, steps[1..])
  }

  /** Exactly the mutators between taking and releasing the lock hold it. */
  ghost predicate LockConsistent(s: State) {
    && (s.holder.Some? ==> s.holder.value < |s.mutators|)
    && forall t :: 0 <= t < |s.mutators| ==> (s.holder == Some(t) <==> s.mutators[t] in {Raising, Testing, Leaving})
  }

  ghost predicate Consistent(s: State) {
    && LockConsistent(s)
    && (!s.block ==> Quiet(s))
    && (s.gc == Stopped ==> s.world)
    && (s.world && s.gc != ClearedBlock ==> s.block && exists t: nat :: InLoop(s, t))
  }

  lemma LockStep(s: State, step: Step)
    requires LockConsistent(s) && Apply(s, step).Some?
    ensures LockConsistent(Apply(s, step).value)
  {
  }

  lemma {:induction false} LockRun(s: State, steps: seq<Step>)
    requires LockConsistent(s) && Run(s, steps).Some?
    ensures LockConsistent(Run(s, steps).value)
    decreases |steps|
  {
    if steps != [] {
      LockStep(s, steps[0]);
      LockRun(Apply(s, steps[0]).value, steps[1..]);
    }
  }

  lemma QuietStep(s: State, step: Step)
    requires Apply(s, step).Some? && Consistent(s) && (step == ClearBlock ==> Quiet(s))
    ensures !Apply(s, step).value.block ==> Quiet(Apply(s, step).value)
  {
  }

  lemma ConsistentStep(s: State, step: Step)
    requires Apply(s, step).Some? && Consistent(s) && (step == ClearBlock ==> Quiet(s))
    ensures Consistent(Apply(s, step).value)
  {
    var next := Apply(s, step).value;
    LockStep(s, step);
    QuietStep(s, step);
    if next.world && next.gc != ClearedBlock {
      if step.Raise? {
        assert s.mutators[step.t] == Raising;
        assert InLoop(next, step.t);
      } else {
        var t: nat :| InLoop(s, t);
        assert InLoop(next, t);
      }
    }
  }

  lemma {:induction false} ConsistentRun(s: State, steps: seq<Step>)
    requires Consistent(s) && QuietThroughout(s, steps) && Run(s, steps).Some?
    ensures Consistent(Run(s, steps).value)
    decreases |steps|
  {
    if steps != [] {
      ConsistentStep(s, steps[0]);
      ConsistentRun(Apply(s, steps[0]).value, steps[1..]);
    }
  }

  /** Safety, for any number of threads, of which any number may block at once: a run that clears
    BLOCK_FOR_GC only while the mutators are quiet is safe in every state. */
  lemma QuietSafety(threads: nat, steps: seq<Step>)
    requires QuietThroughout(Initial(threads), steps) && Run(Initial(threads), steps).Some?
    ensures Safe(Run(Initial(threads), steps).value)
  {
    ConsistentRun(Initial(threads), steps);
  }

  ghost predicate EnterFree(steps: seq<Step>) {
    forall i :: 0 <= i < |steps| ==> !steps[i].Enter?
  }

  /** Whatever the threads already in the protocol do after a ClearBlock taken now, the result is safe. */
  ghost predicate ClearIsSafe(s: State) {
    forall rest :: EnterFree(rest) && Run(s, [ClearBlock] + rest).Some? ==> Safe(Run(s, [ClearBlock] + rest).value)
  }

  /** Nobody asks for a collection, and nobody is on the way to asking. */
  ghost predicate Idle(s: State) {
    !s.block && Quiet(s) && s.gc != Stopped && (s.gc in {ClearedWorld, Spinning} ==> !s.world)
  }

  lemma {:induction false} IdleRun(s: State, steps: seq<Step>)
    requires Idle(s) && EnterFree(steps) && Run(s, steps).Some?
    ensures Idle(Run(s, steps).value)
    decreases |steps|
  {
    if steps != [] {
      IdleStep(s, steps[0]);
      IdleRun(Apply(s, steps[0]).value, steps[1..]);
    }
  }

  lemma IdleStep(s: State, step: Step)
    requires Idle(s) && !step.Enter? && Apply(s, step).Some?
    ensures Idle(Apply(s, step).value)
  {
  }

  lemma RunFirst(s: State, step: Step, rest: seq<Step>)
    ensures Run(s, [step] + rest) == match Apply(s, step) case None => None case Some(next) => Run(next, rest)
  {
    assert ([step] + rest)[1..] == rest;
  }

  /** A mutator that raises the flag after both stores makes the collector see a stopped world while
    BLOCK_FOR_GC is down. */
  lemma RaiseAfterStores(s: State, t: nat) returns (steps: seq<Step>)
    requires s.gc == ClearedBlock && !s.block && At(s, t, Raising)
    ensures EnterFree(steps) && Run(s, steps).Some?
    ensures Run(s, steps).value.gc == Stopped && !Run(s, steps).value.block
  {
    var a := s.(world := false, gc := ClearedWorld);
    var b := a.(world := true, mutators := s.mutators[t := Testing]);
    assert Apply(s, ClearWorld) == Some(a) && Apply(a, Raise(t)) == Some(b);
    assert Run(b, [Notify, SeeStopped]) == Some(b.(gc := Stopped)) by {
      RunFirst(b, Notify, [SeeStopped]);
      RunFirst(b.(gc := Spinning), SeeStopped, []);
    }
    RunFirst(a, Raise(t), [Notify, SeeStopped]);
    RunFirst(s, ClearWorld, [Raise(t)] + [Notify, SeeStopped]);
    steps := [ClearWorld] + ([Raise(t)] + [Notify, SeeStopped]);
  }

  /** A mutator that wants the lock gets it, once its holder has left the loop. */
  lemma TakeLock(s: State, t: nat) returns (steps: seq<Step>)
    requires LockConsistent(s) && s.gc == ClearedBlock && !s.block && At(s, t, Locking)
    requires forall u :: 0 <= u < |s.mutators| ==> s.mutators[u] != Raising
    ensures EnterFree(steps) && Run(s, steps).Some?
    ensures var next := Run(s, steps).value; next.gc == ClearedBlock && !next.block && At(next, t, Raising)
    decreases if s.holder.None? then 0 else if s.mutators[s.holder.value] == Leaving then 1 else 2
  {
    if s.holder.None? {
      steps := [Lock(t)];
      assert [Lock(t)][1..] == [];
    } else {
      var h := s.holder.value;
      var step := if s.mutators[h] == Leaving then Leave(h) else Test(h);
      LockStep(s, step);
      var rest := TakeLock(Apply(s, step).value, t);
      RunFirst(s, step, rest);
      steps := [step] + rest;
    }
  }

  lemma UnsafeContinuation(s: State) returns (rest: seq<Step>)
    requires LockConsistent(s) && s.gc == Stopped && !Quiet(s)
    ensures EnterFree(rest) && Run(s, [ClearBlock] + rest).Some?
    ensures !Safe(Run(s, [ClearBlock] + rest).value)
  {
    var cleared := Apply(s, ClearBlock).value;
    var before, last := [], [];
    var t: nat :| t < |s.mutators| && s.mutators[t] in {Locking, Raising};
    if u: nat :| u < |s.mutators| && s.mutators[u] == Raising {
      last := RaiseAfterStores(cleared, u);
    } else {
      before := TakeLock(cleared, t);
      last := RaiseAfterStores(Run(cleared, before).value, t);
    }
    rest := before + last;
    RunConcat(cleared, before, last);
    RunFirst(s, ClearBlock, rest);
  }

  /** Exactly when the first store of resume_mutators is safe, in every state of every run: if and only
    if at that moment no mutator has announced itself without having raised WORLD_HAS_STOPPED. */
  lemma ClearIsSafeExactly(threads: nat, steps: seq<Step>)
    requires Run(Initial(threads), steps).Some? && Run(Initial(threads), steps).value.gc == Stopped
    ensures ClearIsSafe(Run(Initial(threads), steps).value) <==> Quiet(Run(Initial(threads), steps).value)
  {
    var s := Run(Initial(threads), steps).value;
    LockRun(Initial(threads), steps);
    if Quiet(s) {
      forall rest | EnterFree(rest) && Run(s, [ClearBlock] + rest).Some?
        ensures Safe(Run(s, [ClearBlock] + rest).value)
      {
        RunFirst(s, ClearBlock, rest);
        IdleRun(Apply(s, ClearBlock).value, rest);
      }
    } else {
      var rest := UnsafeContinuation(s);
      assert EnterFree(rest);
    }
  }

  // The runtime's rule: one thread at a time blocks for a collection

  predicate OneBlocker(s: State, step: Step) {
    step.Enter? ==> forall u :: 0 <= u < |s.mutators| && u != step.t ==> s.mutators[u] == Outside
  }

  ghost predicate OneBlockerThroughout(s: State, steps: seq<Step>)
    decreases |steps|
  {
    steps != [] ==>
      && OneBlocker(s, steps[0])
      && match Apply(s, steps[0])
         case None => true
         case Some(next) => OneBlockerThroughout(next, steps[1..])
  }

  /** Thread `t` is blocked for the collection: both flags are up, `t` is inside its wait loop and
    every other mutator is outside the call. */
  ghost predicate WorldHeldBy(s: State, t: nat) {
    && s.block && s.world && InLoop(s, t)
    && forall u :: 0 <= u < |s.mutators| && u != t ==> s.mutators[u] == Outside
  }

  ghost predicate Alone(s: State) {
    forall t, u :: 0 <= t < |s.mutators| && 0 <= u < |s.mutators| && t != u ==>
                     s.mutators[t] == Outside || s.mutators[u] == Outside
  }

  ghost predicate Invariant(s: State) {
    Consistent(s) && Alone(s)
  }

  lemma AloneStep(s: State, step: Step)
    requires Alone(s) && OneBlocker(s, step) && Apply(s, step).Some?
    ensures Alone(Apply(s, step).value)
  {
  }

  /** A blocked mutator that is alone holds the world. */
  lemma AloneHolds(s: State, t: nat)
    requires Alone(s) && s.block && s.world && InLoop(s, t)
    ensures WorldHeldBy(s, t) && Quiet(s)
  {
    forall u | 0 <= u < |s.mutators| && u != t ensures s.mutators[u] == Outside {
      assert s.mutators[t] == Outside || s.mutators[u] == Outside;
    }
  }

  /** With one blocker, the mutators are quiet whenever the collector has stopped the world. */
  lemma OneBlockerQuiet(s: State)
    requires Invariant(s) && s.gc == Stopped
    ensures Quiet(s) && exists t: nat :: WorldHeldBy(s, t)
  {
    var t: nat :| InLoop(s, t);
    AloneHolds(s, t);
  }

  lemma StepInvariant(s: State, step: Step)
    requires Invariant(s) && OneBlocker(s, step) && Apply(s, step).Some?
    ensures Invariant(Apply(s, step).value)
  {
    AloneStep(s, step);
    if step == ClearBlock {
      OneBlockerQuiet(s);
    }
    ConsistentStep(s, step);
  }

  lemma {:induction false} RunInvariant(s: State, steps: seq<Step>)
    requires Invariant(s) && OneBlockerThroughout(s, steps) && Run(s, steps).Some?
    ensures Invariant(Run(s, steps).value) && QuietThroughout(s, steps)
    decreases |steps|
  {
    if steps != [] {
      if steps[0] == ClearBlock {
        OneBlockerQuiet(s);
      }
      StepInvariant(s, steps[0]);
      RunInvariant(Apply(s, steps[0]).value, steps[1..]);
    }
  }

  /** The one-blocker case: such a run clears quietly, so it is safe, and the one mutator that is
    not outside is the blocked one. */
  lemma StopTheWorldSafety(threads: nat, steps: seq<Step>)
    requires OneBlockerThroughout(Initial(threads), steps) && Run(Initial(threads), steps).Some?
    ensures QuietThroughout(Initial(threads), steps)
    ensures var s := Run(Initial(threads), steps).value;
            s.gc == Stopped ==> exists t: nat :: WorldHeldBy(s, t)
  {
    RunInvariant(Initial(threads), steps);
    QuietSafety(threads, steps);
    var s := Run(Initial(threads), steps).value;
    if s.gc == Stopped {
      var t: nat :| InLoop(s, t);
      AloneHolds(s, t);
    }
  }

  /** A step of the world's holder, or of the GC thread, leaves the world held until a flag is cleared. */
  lemma HeldStep(s: State, step: Step, t: nat)
    requires Invariant(s) && WorldHeldBy(s, t) && OneBlocker(s, step)
    requires Apply(s, step).Some? && step !in {ClearBlock, ClearWorld}
    ensures WorldHeldBy(Apply(s, step).value, t)
  {
    assert s.mutators[t] != Outside;
  }

  /** And it is the same mutator from the moment the flag is seen until BLOCK_FOR_GC is cleared. */
  lemma {:induction false} SameMutatorThroughout(s: State, steps: seq<Step>, t: nat)
    requires Invariant(s) && OneBlockerThroughout(s, steps) && Run(s, steps).Some?
    requires s.gc == Stopped && WorldHeldBy(s, t) && ClearBlock !in steps
    ensures WorldHeldBy(Run(s, steps).value, t) && Run(s, steps).value.gc == Stopped
    decreases |steps|
  {
    if steps != [] {
      assert steps[0] in steps;
      HeldStep(s, steps[0], t);
      StepInvariant(s, steps[0]);
      SameMutatorThroughout(Apply(s, steps[0]).value, steps[1..], t);
    }
  }

  // What the guarantee rests on, and what it does not give

  lemma {:induction false} RunConcat(s: State, a: seq<Step>, b: seq<Step>)
    ensures Run(s, a + b) == match Run(s, a) case None => None case Some(mid) => Run(mid, b)
    decreases |a|
  {
    if a == [] {
      assert a + b == b;
    } else {
      assert (a + b)[1..] == a[1..] + b;
      if Apply(s, a[0]).Some? {
        RunConcat(Apply(s, a[0]).value, a[1..], b);
      }
    }
  }

  /** Two threads are enough to be unsafe, from the start: the second announces itself before
    BLOCK_FOR_GC is cleared, raises WORLD_HAS_STOPPED after resume_mutators has lowered it, and leaves.
    The GC thread then works with no mutator blocked. */
  lemma TwoBlockersBreakSafety()
    ensures exists steps ::
              && Run(Initial(2), steps).Some?
              && var s := Run(Initial(2), steps).value;
                 s.gc == Stopped && !s.block && s.mutators == [Outside, Outside]
  {
    var first := FirstStop();
    var middle := SecondEnters();
    var last := FlagRaisedAgain();
    var out := FirstLeaves();
    RunConcat(Initial(2), first, middle);
    RunConcat(Initial(2), first + middle, last);
    RunConcat(Initial(2), first + middle + last, out);
    assert Run(Initial(2), first + middle + last + out).Some?;
  }

  lemma SecondEnters() returns (steps: seq<Step>)
    ensures Run(State(true, true, None, [Waiting, Outside], Stopped), steps)
            == Some(State(false, false, None, [Waiting, Locking], Spinning))
  {
    TwoMutators(Waiting, Outside, Locking);
    var s := State(true, true, None, [Waiting, Outside], Stopped);
    steps := [Enter(1), ClearBlock, ClearWorld, Notify];
    assert Apply(s, steps[0]) == Some(s.(mutators := [Waiting, Locking]));
    assert steps[1..][1..][1..] == [Notify] && [Notify][1..] == [];
  }

  lemma FlagRaisedAgain() returns (steps: seq<Step>)
    ensures Run(State(false, false, None, [Waiting, Locking], Spinning), steps)
            == Some(State(false, true, None, [Waiting, Outside], Stopped))
  {
    TwoMutators(Waiting, Locking, Raising);
    TwoMutators(Waiting, Raising, Testing);
    TwoMutators(Waiting, Testing, Leaving);
    TwoMutators(Waiting, Leaving, Outside);
    var s := State(false, false, None, [Waiting, Locking], Spinning);
    steps := [Lock(1), Raise(1), Test(1), Leave(1), SeeStopped];
    var a := s.(holder := Some(1), mutators := [Waiting, Raising]);
    assert Apply(s, Lock(1)) == Some(a);
    var b := a.(world := true, mutators := [Waiting, Testing]);
    assert Apply(a, Raise(1)) == Some(b);
    var c := b.(mutators := [Waiting, Leaving]);
    assert Apply(b, Test(1)) == Some(c);
    assert steps[1..][1..][1..][1..] == [SeeStopped] && [SeeStopped][1..] == [];
  }

  lemma FirstLeaves() returns (steps: seq<Step>)
    ensures Run(State(false, true, None, [Waiting, Outside], Stopped), steps)
            == Some(State(false, true, None, [Outside, Outside], Stopped))
  {
    TwoMutators(Waiting, Outside, Testing);
    TwoMutators(Testing, Outside, Leaving);
    TwoMutators(Leaving, Outside, Outside);
    var s := State(false, true, None, [Waiting, Outside], Stopped);
    steps := [Wake(0), Test(0), Leave(0)];
    var a := s.(holder := Some(0), mutators := [Testing, Outside]);
    assert Apply(s, Wake(0)) == Some(a);
    assert Apply(a, Test(0)) == Some(a.(mutators := [Leaving, Outside]));
    assert steps[1..][1..] == [Leave(0)] && [Leave(0)][1..] == [];
  }

  lemma TwoMutators(a: MutatorPc, b: MutatorPc, pc: MutatorPc)
    ensures [a, b][0 := pc] == [pc, b] && [a, b][1 := pc] == [a, pc]
  {
  }

  lemma FirstStop() returns (steps: seq<Step>)
    ensures Run(Initial(2), steps)
            == Some(State(true, true, None, [Waiting, Outside], Stopped))
    ensures OnlyFirstEnters(steps)
  {
    var s0 := Initial(2);
    assert s0.mutators == [Outside, Outside];
    TwoMutators(Outside, Outside, Locking);
    TwoMutators(Locking, Outside, Raising);
    TwoMutators(Raising, Outside, Testing);
    TwoMutators(Testing, Outside, Waiting);
    steps := [Enter(0), Lock(0), Raise(0), Test(0), SeeStopped];
    var s1 := s0.(block := true, mutators := [Locking, Outside]);
    assert Apply(s0, Enter(0)) == Some(s1);
    var s2 := s1.(holder := Some(0), mutators := [Raising, Outside]);
    assert Apply(s1, Lock(0)) == Some(s2);
    var s3 := s2.(world := true, mutators := [Testing, Outside]);
    assert Apply(s2, Raise(0)) == Some(s3);
    var s4 := s3.(holder := None, mutators := [Waiting, Outside]);
    assert Apply(s3, Test(0)) == Some(s4);
    assert Run(s4, [SeeStopped]) == Some(s4.(gc := Stopped)) by { assert [SeeStopped][1..] == []; }
    assert steps[1..][1..][1..][1..] == [SeeStopped];
  }

  /** A stop request that was lost: thread `t` waits for a collection, and the GC thread waits for a
    flag that nobody is left to raise. */
  ghost predicate LostStop(s: State, t: nat) {
    && s.block && !s.world && s.gc in {ClearedWorld, Spinning} && InLoop(s, t)
    && forall u :: 0 <= u < |s.mutators| && u != t ==> s.mutators[u] == Outside
  }

  /** No step leaves a lost stop, so neither thread ever moves on. */
  lemma LostStopIsForever(s: State, step: Step, t: nat)
    requires LostStop(s, t) && OneBlocker(s, step) && Apply(s, step).Some?
    ensures LostStop(Apply(s, step).value, t)
  {
    assert s.mutators[t] != Outside;
  }

  /** A stop is lost exactly when the second store of resume_mutators is taken after a mutator has
    come back in and raised the flag: no other step of any run loses one. */
  lemma LostStopOnlyBetweenStores(s: State, step: Step, t: nat)
    requires Invariant(s) && OneBlocker(s, step) && Apply(s, step).Some?
    ensures LostStop(Apply(s, step).value, t) && !LostStop(s, t)
            <==> step == ClearWorld && s.block && InLoop(s, t)
  {
    if step == ClearWorld && s.block && InLoop(s, t) {
      forall u | 0 <= u < |s.mutators| && u != t ensures s.mutators[u] == Outside {
        assert s.mutators[t] == Outside || s.mutators[u] == Outside;
      }
    }
  }

  /** Lost stops happen: woken between the two stores, the mutator leaves, comes back in and raises
    the flag just before it is lowered. One thread and the one-blocker rule are enough. */
  lemma StopsCanBeLost()
    ensures exists steps ::
              && OneBlockerThroughout(Initial(2), steps) && Run(Initial(2), steps).Some?
              && LostStop(Run(Initial(2), steps).value, 0)
  {
    var first := FirstStop();
    var back := ComesBack();
    var again := FlagLowered();
    RunConcat(Initial(2), first, back);
    RunConcat(Initial(2), first + back, again);
    OneEntererIsAlone(Initial(2), first + back + again);
  }

  /** Of two threads, only thread 0 ever enters. */
  ghost predicate OnlyFirstEnters(steps: seq<Step>) {
    forall i :: 0 <= i < |steps| && steps[i].Enter? ==> steps[i].t == 0
  }

  lemma {:induction false} OneEntererIsAlone(s: State, steps: seq<Step>)
    requires |s.mutators| == 2 && s.mutators[1] == Outside && OnlyFirstEnters(steps)
    ensures OneBlockerThroughout(s, steps)
    decreases |steps|
  {
    if steps != [] && Apply(s, steps[0]).Some? {
      assert steps[0].Enter? ==> steps[0].t == 0;
      OneEntererIsAlone(Apply(s, steps[0]).value, steps[1..]);
    }
  }

  lemma ComesBack() returns (steps: seq<Step>)
    ensures Run(State(true, true, None, [Waiting, Outside], Stopped), steps)
            == Some(State(true, true, None, [Locking, Outside], ClearedBlock))
    ensures OnlyFirstEnters(steps)
  {
    TwoMutators(Waiting, Outside, Testing);
    TwoMutators(Testing, Outside, Leaving);
    TwoMutators(Leaving, Outside, Outside);
    TwoMutators(Outside, Outside, Locking);
    var s := State(true, true, None, [Waiting, Outside], Stopped);
    steps := [ClearBlock, Wake(0), Test(0), Leave(0), Enter(0)];
    var a := s.(block := false, gc := ClearedBlock);
    var b := a.(holder := Some(0), mutators := [Testing, Outside]);
    assert Apply(a, Wake(0)) == Some(b);
    var c := b.(mutators := [Leaving, Outside]);
    assert Apply(b, Test(0)) == Some(c);
    var d := c.(holder := None, mutators := [Outside, Outside]);
    assert Apply(c, Leave(0)) == Some(d);
    assert steps[1..][1..][1..][1..] == [Enter(0)] && [Enter(0)][1..] == [];
  }

  lemma FlagLowered() returns (steps: seq<Step>)
    ensures Run(State(true, true, None, [Locking, Outside], ClearedBlock), steps)
            == Some(State(true, false, None, [Waiting, Outside], ClearedWorld))
    ensures OnlyFirstEnters(steps)
  {
    TwoMutators(Locking, Outside, Raising);
    TwoMutators(Raising, Outside, Testing);
    TwoMutators(Testing, Outside, Waiting);
    var s := State(true, true, None, [Locking, Outside], ClearedBlock);
    steps := [Lock(0), Raise(0), Test(0), ClearWorld];
    var a := s.(holder := Some(0), mutators := [Raising, Outside]);
    assert Apply(s, Lock(0)) == Some(a);
    var b := a.(mutators := [Testing, Outside]);
    assert Apply(a, Raise(0)) == Some(b);
    assert Apply(b, Test(0)) == Some(b.(holder := None, mutators := [Waiting, Outside]));
    assert steps[1..][1..][1..] == [ClearWorld] && [ClearWorld][1..] == [];
  }
}
