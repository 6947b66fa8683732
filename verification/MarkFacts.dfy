/** What sweeping and marking leave of each finalizer entry, said without the functions that compute it. */
module MarkFacts {
  import opened Bits
  import opened FinalizerSpec
  import opened Finalizer
  import opened Sequences

  // One entry

  /** Objects move to even addresses. */
  ghost predicate EvenMoves(forward: ForwardingMap) {
    forall o :: o in forward ==> !Tag1(forward[o])
  }

  /** Where the object at an address is after the collection. */
  function NewAddress(obj: Word, forward: ForwardingMap): Word {
    if obj in forward then forward[obj] else obj
  }

  /** A word that refers to an object refers to it at its new address, under the same tag 1; zero, and a word
    tagged 2, are as before. */
  ghost predicate Follows(before: Word, after: Word, forward: ForwardingMap) {
    if before == 0 || Tag2(before) then after == before
    else ClearTag1(after) == NewAddress(ClearTag1(before), forward) && (Tag1(after) <==> Tag1(before))
  }

  /** An entry whose object and, unless it is native, whose finalizer have been followed. */
  ghost predicate EntryFollows(before: Pair, after: Pair, forward: ForwardingMap) {
    && Follows(before.v, after.v, forward)
    && if Tag1(before.v) then after.fin == before.fin else Follows(before.fin, after.fin, forward)
  }

  lemma TagOnAndOff(x: Word)
    requires !Tag1(x)
    ensures ClearTag1(x) == x && ClearTag1(SetTag1(x)) == x && Tag1(SetTag1(x))
  {
  }

  lemma Cleared(x: Word)
    ensures !Tag1(ClearTag1(x)) && (Tag1(x) ==> ClearTag1(x) == x - 1) && (!Tag1(x) ==> ClearTag1(x) == x)
  {
  }

  lemma WordFollows(word: Word, forward: ForwardingMap)
    requires EvenMoves(forward)
    ensures Follows(word, MarkWord(word, forward), forward)
  {
    if word != 0 && !Tag2(word) {
      var moved := Forward(forward, ClearTag1(word));
      Cleared(word);
      assert moved == NewAddress(ClearTag1(word), forward) && !Tag1(moved);
      TagOnAndOff(moved);
    }
  }

  /** Every entry of a marked list follows its object and its finalizer. */
  lemma EachFollows(pairs: seq<Pair>, forward: ForwardingMap, k: nat)
    requires EvenMoves(forward) && k < |pairs|
    ensures EntryFollows(pairs[k], MarkPairs(pairs, forward)[k], forward)
  {
    WordFollows(pairs[k].v, forward);
    WordFollows(pairs[k].fin, forward);
  }

  /** In particular a list none of whose objects moves is left as it is. */
  lemma NothingMoves(pairs: seq<Pair>, forward: ForwardingMap, k: nat)
    requires k < |pairs| && forall o :: o in forward ==> forward[o] == o && !Tag1(o)
    ensures MarkPairs(pairs, forward)[k] == pairs[k]
  {
    EachFollows(pairs, forward, k);
    SameTagged(pairs[k].v, MarkPairs(pairs, forward)[k].v);
    if !Tag1(pairs[k].v) {
      SameTagged(pairs[k].fin, MarkPairs(pairs, forward)[k].fin);
    }
  }

  lemma SameTagged(a: Word, b: Word)
    ensures ClearTag1(a) == ClearTag1(b) && (Tag1(a) <==> Tag1(b)) <==> a == b
  {
  }

  /** The walk of any list, in step or not, changes a word only by following it. */
  lemma {:induction false} WalkFollows(words: seq<Word>, forward: ForwardingMap, i: nat)
    requires EvenMoves(forward) && i < |words|
    ensures var after := MarkWalk(words, forward).words;
            |after| == |words| && (after[i] == words[i] || Follows(words[i], after[i], forward))
    decreases |words|
  {
    WalkLength(words, forward);
    WordFollows(words[0], forward);
    if Tag1(words[0]) && |words| > 1 {
      if i >= 2 {
        WalkFollows(words[2..], forward, i - 2);
      }
    } else if i >= 1 {
      WalkFollows(words[1..], forward, i - 1);
    }
  }

  lemma {:induction false} WalkLength(words: seq<Word>, forward: ForwardingMap)
    ensures |MarkWalk(words, forward).words| == |words|
    decreases |words|
  {
    if words != [] {
      if Tag1(words[0]) && |words| > 1 {
        WalkLength(words[2..], forward);
      } else {
        WalkLength(words[1..], forward);
      }
    }
  }

  // The trace

  /** The objects to trace for a word. */
  function TracedFor(word: Word): seq<Word> {
    if word == 0 || Tag2(word) then [] else if Tag1(word) then [word - 1] else [word]
  }

  function TraceParts(pairs: seq<Pair>): (parts: seq<seq<Word>>)
    ensures |parts| == |pairs|
    ensures forall k :: 0 <= k < |pairs| ==>
                          parts[k] == TracedFor(pairs[k].v) + if Tag1(pairs[k].v) then [] else TracedFor(pairs[k].fin)
  {
    if pairs == [] then []
    else [TracedFor(pairs[0].v) + if Tag1(pairs[0].v) then [] else TracedFor(pairs[0].fin)] + TraceParts(pairs[1..])
  }

  /** Marking traces, entry after entry, the object and then the finalizer, those that are to be traced. */
  lemma {:induction false} TraceIsEntries(pairs: seq<Pair>)
    ensures TracePairs(pairs) == Concat(TraceParts(pairs))
  {
    if pairs != [] {
      TraceIsEntries(pairs[1..]);
      assert TraceParts(pairs)[1..] == TraceParts(pairs[1..]);
    }
  }

  // The whole pass

  /** The list `after` is `before` with every entry from `start` on followed. */
  ghost predicate ListFollows(before: seq<Pair>, after: seq<Pair>, start: nat, forward: ForwardingMap) {
    && |after| == |before|
    && (forall k :: 0 <= k < start && k < |before| ==> after[k] == before[k])
    && (forall k :: start <= k < |before| ==> EntryFollows(before[k], after[k], forward))
  }

  /** The lists that a pass leaves, pair by pair: every entry of to_finalize and, from where marking starts,
    every entry of the marked list follows its object and its finalizer; the old marked entries of a nursery
    collection are as they were; and the trace is that of the marked entries and then of to_finalize. */
  lemma PassFollows(locals: seq<Pair>, s: Swept, live: set<Word>, nursery: bool, forward: ForwardingMap,
                    after: Swept, start: nat)
    requires EvenMoves(forward) && after == SweepPass(locals, s, live, nursery) && start == MarkedStart(s, nursery)
    requires AllButLastKeepStep(after.toFinalize)
    requires start <= |after.marked| ==> AllButLastKeepStep(after.marked[start..])
    ensures start <= |after.marked|
    ensures var tf := MarkFrom(Flatten(after.toFinalize), 0, forward);
            && |tf.words| == 2 * |after.toFinalize| && ListFollows(after.toFinalize, Pairs(tf.words), 0, forward)
            && tf.traced == Concat(TraceParts(after.toFinalize))
    ensures var mk := MarkFrom(Flatten(after.marked), 2 * start, forward);
            && |mk.words| == 2 * |after.marked| && ListFollows(after.marked, Pairs(mk.words), start, forward)
            && mk.traced == Concat(TraceParts(after.marked[start..]))
  {
    PassMarksPairs(locals, s, live, nursery, forward);
    WalkListFollows(after.marked, start, forward);
    assert after.toFinalize[0..] == after.toFinalize;
    WalkListFollows(after.toFinalize, 0, forward);
  }

  /** What a pass leaves in the two shared lists, when objects move to even addresses and the swept lists keep
    step: all their entries followed, but for the old marked ones of a nursery collection. */
  ghost predicate PassLeft(locals: seq<Pair>, s: Swept, live: set<Word>, nursery: bool, forward: ForwardingMap,
                           tf: seq<Word>, mk: seq<Word>)
  {
    var after, start := SweepPass(locals, s, live, nursery), MarkedStart(s, nursery);
    EvenMoves(forward) && AllButLastKeepStep(after.toFinalize)
    && (start <= |after.marked| ==> AllButLastKeepStep(after.marked[start..])) ==>
      && |tf| == 2 * |after.toFinalize| && ListFollows(after.toFinalize, Pairs(tf), 0, forward)
      && |mk| == 2 * |after.marked| && ListFollows(after.marked, Pairs(mk), start, forward)
  }

  lemma PassLeaves(locals: seq<Pair>, s: Swept, live: set<Word>, nursery: bool, forward: ForwardingMap)
    ensures var after, start := SweepPass(locals, s, live, nursery), MarkedStart(s, nursery);
            PassLeft(locals, s, live, nursery, forward, MarkFrom(Flatten(after.toFinalize), 0, forward).words,
                     MarkFrom(Flatten(after.marked), 2 * start, forward).words)
  {
    var after, start := SweepPass(locals, s, live, nursery), MarkedStart(s, nursery);
    if EvenMoves(forward) && AllButLastKeepStep(after.toFinalize)
       && (start <= |after.marked| ==> AllButLastKeepStep(after.marked[start..]))
    {
      PassFollows(locals, s, live, nursery, forward, after, start);
    }
  }

  lemma WalkListFollows(pairs: seq<Pair>, start: nat, forward: ForwardingMap)
    requires EvenMoves(forward) && start <= |pairs| && AllButLastKeepStep(pairs[start..])
    ensures var walk := MarkFrom(Flatten(pairs), 2 * start, forward);
            && |walk.words| == 2 * |pairs| && ListFollows(pairs, Pairs(walk.words), start, forward)
            && walk.traced == Concat(TraceParts(pairs[start..]))
  {
    MarkFromPairs(pairs, start, forward);
    PairsOfFlatten(pairs[..start] + MarkPairs(pairs[start..], forward));
    MarkedFollows(pairs, start, forward);
    TraceIsEntries(pairs[start..]);
  }

  lemma MarkedFollows(pairs: seq<Pair>, start: nat, forward: ForwardingMap)
    requires EvenMoves(forward) && start <= |pairs|
    ensures ListFollows(pairs, pairs[..start] + MarkPairs(pairs[start..], forward), start, forward)
  {
    var tail := MarkPairs(pairs[start..], forward);
    var marked := pairs[..start] + tail;
    forall k | start <= k < |pairs| ensures EntryFollows(pairs[k], marked[k], forward) {
      EachFollows(pairs[start..], forward, k - start);
      assert marked[k] == tail[k - start] && pairs[k] == pairs[start..][k - start];
    }
  }

  // The flag

  lemma {:induction false} NoneFreed(pairs: seq<Pair>, live: set<Word>, hasMarked: bool)
    ensures Select(pairs, live, hasMarked, Freed) == []
            <==> forall p :: p in pairs && p.v != 0 ==> !MustRun(p, live)
  {
    if pairs != [] {
      NoneFreed(pairs[1..], live, hasMarked);
      assert forall p :: p in pairs <==> p == pairs[0] || p in pairs[1..];
    }
  }

  /** A sweep sets the flag exactly when a non-zero pair of the list is tagged 2 or dead. */
  lemma FlagSetExactly(pairs: seq<Pair>, live: set<Word>, hasMarked: bool)
    ensures Chosen(pairs, live, hasMarked, Freed) != [] <==> exists p :: p in pairs && p.v != 0 && MustRun(p, live)
  {
    NoneFreed(pairs, live, hasMarked);
    assert Chosen(pairs, live, hasMarked, Freed) == [] <==> Select(pairs, live, hasMarked, Freed) == [];
  }

  /** A pass sets it exactly when such a pair is in a swept list. */
  lemma PassSetsFlagExactly(locals: seq<Pair>, s: Swept, live: set<Word>, nursery: bool)
    ensures SweepPass(locals, s, live, nursery).toFinalize != s.toFinalize
            <==> exists p :: (p in locals || (!nursery && p in s.marked)) && p.v != 0 && MustRun(p, live)
  {
    PassPlaces(locals, s, live, nursery);
    NoneFreed(locals, live, true);
    NoneFreed(s.marked, live, false);
    var freed, again := Select(locals, live, true, Freed), Select(s.marked, live, false, Freed);
    Grown(s.toFinalize, freed);
    Grown(s.toFinalize, freed + again);
    Associate(s.toFinalize, freed, again);
    assert freed + again == [] <==> freed == [] && again == [];
  }
}
