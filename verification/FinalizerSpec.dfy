/** What finalizer scanning means (julia_finalizer.rs), on lists of pairs.

  A finalizer list stores, for each registered finalizer, the tagged object and then the finalizer
  itself. Tag 1 on the object marks a native finalizer, tag 2 one that must run in any case. */
module FinalizerSpec {
  import opened Bits
  import opened Sequences

  datatype Pair = Pair(v: Word, fin: Word)

  /** The words of a list of pairs. */
  function Flatten(pairs: seq<Pair>): (words: seq<Word>)
    ensures |words| == 2 * |pairs|
  {
    if pairs == [] then [] else [pairs[0].v, pairs[0].fin] + Flatten(pairs[1..])
  }

  /** The pairs a list of words holds. */
  function Pairs(words: seq<Word>): (pairs: seq<Pair>)
    requires |words| % 2 == 0
    ensures 2 * |pairs| == |words|
    decreases |words|
  {
    if words == [] then [] else [Pair(words[0], words[1])] + Pairs(words[2..])
  }

  lemma {:induction false} PairsOfFlatten(pairs: seq<Pair>)
    ensures Pairs(Flatten(pairs)) == pairs
  {
    if pairs != [] {
      PairsOfFlatten(pairs[1..]);
      assert Flatten(pairs)[2..] == Flatten(pairs[1..]);
    }
  }

  lemma {:induction false} FlattenOfPairs(words: seq<Word>)
    requires |words| % 2 == 0
    ensures Flatten(Pairs(words)) == words
    decreases |words|
  {
    if words != [] {
      FlattenOfPairs(words[2..]);
      assert words == [words[0], words[1]] + words[2..];
    }
  }

  lemma {:induction false} FlattenConcat(a: seq<Pair>, b: seq<Pair>)
    ensures Flatten(a + b) == Flatten(a) + Flatten(b)
    decreases |a|
  {
    if a == [] {
      assert a + b == b;
    } else {
      assert (a + b)[1..] == a[1..] + b;
      FlattenConcat(a[1..], b);
    }
  }

  lemma {:induction false} PairAt(words: seq<Word>, k: nat)
    requires |words| % 2 == 0 && 2 * k < |words|
    ensures Pairs(words)[k] == Pair(words[2 * k], words[2 * k + 1])
    decreases k
  {
    if k > 0 {
      PairAt(words[2..], k - 1);
    }
  }

  // Sweeping

  /** What a sweep does with a pair. */
  datatype Fate = Gone | Freed | Old | Retained

  /** `hasMarked` says whether the sweep has a list of old finalizers to move live pairs to. */
  function FateOf(p: Pair, live: set<Word>, hasMarked: bool): Fate {
    if p.v == 0 then Gone
    else if Tag2(p.v) || ClearTags(p.v) !in live then Freed
    else if hasMarked then Old
    else Retained
  }

  /** A pair, if it has the given fate. */
  function Keep(p: Pair, live: set<Word>, hasMarked: bool, fate: Fate): seq<Pair> {
    if FateOf(p, live, hasMarked) == fate then [p] else []
  }

  /** The pairs with a given fate, in order. */
  function Select(pairs: seq<Pair>, live: set<Word>, hasMarked: bool, fate: Fate): seq<Pair> {
    if pairs == [] then []
    else Keep(pairs[0], live, hasMarked, fate) + Select(pairs[1..], live, hasMarked, fate)
  }

  lemma {:induction false} SelectConcat(a: seq<Pair>, b: seq<Pair>, live: set<Word>, hasMarked: bool, fate: Fate)
    ensures Select(a + b, live, hasMarked, fate)
            == Select(a, live, hasMarked, fate) + Select(b, live, hasMarked, fate)
    decreases |a|
  {
    if a == [] {
      assert a + b == b;
    } else {
      assert (a + b)[1..] == a[1..] + b;
      SelectConcat(a[1..], b, live, hasMarked, fate);
      Associate(Keep(a[0], live, hasMarked, fate),
                Select(a[1..], live, hasMarked, fate), Select(b, live, hasMarked, fate));
    }
  }

  /** The sweep's next pair joins the end of exactly one selection. */
  lemma SelectNext(pairs: seq<Pair>, k: nat, live: set<Word>, hasMarked: bool, fate: Fate)
    requires k < |pairs|
    ensures Select(pairs[..k + 1], live, hasMarked, fate)
            == Select(pairs[..k], live, hasMarked, fate)
               + Keep(pairs[k], live, hasMarked, fate)
  {
    assert pairs[..k + 1] == pairs[..k] + [pairs[k]];
    SelectConcat(pairs[..k], [pairs[k]], live, hasMarked, fate);
    assert [pairs[k]][1..] == [];
  }

  /** How many pairs before index `k` share a fate: the place pair `k` takes among them. */
  function Rank(pairs: seq<Pair>, k: nat, live: set<Word>, hasMarked: bool, fate: Fate): nat
    requires k <= |pairs|
  {
    |Select(pairs[..k], live, hasMarked, fate)|
  }

  /** A selection is stable: pair `k` sits at its rank, and ranks grow with `k`. */
  lemma SelectStable(pairs: seq<Pair>, k: nat, live: set<Word>, hasMarked: bool)
    requires k < |pairs|
    ensures var fate := FateOf(pairs[k], live, hasMarked);
            var r := Rank(pairs, k, live, hasMarked, fate);
            && r < |Select(pairs, live, hasMarked, fate)| && Select(pairs, live, hasMarked, fate)[r] == pairs[k]
            && Rank(pairs, k + 1, live, hasMarked, fate) == r + 1
  {
    var fate := FateOf(pairs[k], live, hasMarked);
    SelectNext(pairs, k, live, hasMarked, fate);
    assert pairs == pairs[..k + 1] + pairs[k + 1..];
    SelectConcat(pairs[..k + 1], pairs[k + 1..], live, hasMarked, fate);
  }

  /** The pairs that hold a finalizer at all. */
  function NonZero(pairs: seq<Pair>): seq<Pair> {
    if pairs == [] then [] else (if pairs[0].v == 0 then [] else [pairs[0]]) + NonZero(pairs[1..])
  }

  /** Nothing is lost and nothing is duplicated: the selections share out the non-zero pairs. */
  lemma {:induction false} SweepConserves(pairs: seq<Pair>, live: set<Word>, hasMarked: bool)
    ensures multiset(Select(pairs, live, hasMarked, Freed)) + multiset(Select(pairs, live, hasMarked, Old))
            + multiset(Select(pairs, live, hasMarked, Retained)) == multiset(NonZero(pairs))
  {
    if pairs != [] {
      SweepConserves(pairs[1..], live, hasMarked);
      SelectHead(pairs, live, hasMarked, Freed);
      SelectHead(pairs, live, hasMarked, Old);
      SelectHead(pairs, live, hasMarked, Retained);
    }
  }

  lemma SelectHead(pairs: seq<Pair>, live: set<Word>, hasMarked: bool, fate: Fate)
    requires pairs != []
    ensures multiset(Select(pairs, live, hasMarked, fate))
            == (if FateOf(pairs[0], live, hasMarked) == fate then multiset{pairs[0]} else multiset{})
               + multiset(Select(pairs[1..], live, hasMarked, fate))
    ensures multiset(NonZero(pairs))
            == (if pairs[0].v == 0 then multiset{} else multiset{pairs[0]}) + multiset(NonZero(pairs[1..]))
  {
    assert Select(pairs, live, hasMarked, fate)
           == Keep(pairs[0], live, hasMarked, fate) + Select(pairs[1..], live, hasMarked, fate);
  }

  /** Each selection holds only pairs of its fate. */
  lemma {:induction false} SelectOnly(pairs: seq<Pair>, live: set<Word>, hasMarked: bool, fate: Fate)
    ensures forall p :: p in Select(pairs, live, hasMarked, fate) ==> p in pairs && FateOf(p, live, hasMarked) == fate
  {
    if pairs != [] {
      SelectOnly(pairs[1..], live, hasMarked, fate);
    }
  }

  /** With a marked list to move to, a sweep retains nothing; without one it moves nothing. */
  lemma {:induction false} NothingRetained(pairs: seq<Pair>, live: set<Word>)
    ensures Select(pairs, live, true, Retained) == []
    ensures Select(pairs, live, false, Old) == []
  {
    if pairs != [] {
      NothingRetained(pairs[1..], live);
    }
  }

  // Marking

  /** Where objects went. Objects not in the map did not move. */
  type ForwardingMap = map<Word, Word>

  function Forward(forward: ForwardingMap, obj: Word): Word {
    if obj in forward then forward[obj] else obj
  }

  /** A list word after marking: a reference is replaced by the object's new address under the same
    tag; zero, and a word tagged 2, stay. */
  function MarkWord(word: Word, forward: ForwardingMap): Word {
    if word == 0 || Tag2(word) then word
    else if Tag1(word) then SetTag1(Forward(forward, ClearTag1(word)))
    else Forward(forward, word)
  }

  /** The object traced for a word, as a list of none or one. */
  function TraceWord(word: Word): seq<Word> {
    if word == 0 || Tag2(word) then [] else [ClearTag1(word)]
  }

  /** A native finalizer (object tagged 1) is a code address and is not touched. */
  function MarkPair(p: Pair, forward: ForwardingMap): Pair {
    Pair(MarkWord(p.v, forward), if Tag1(p.v) then p.fin else MarkWord(p.fin, forward))
  }

  function TracePair(p: Pair): seq<Word> {
    TraceWord(p.v) + if Tag1(p.v) then [] else TraceWord(p.fin)
  }

  function MarkPairs(pairs: seq<Pair>, forward: ForwardingMap): (marked: seq<Pair>)
    ensures |marked| == |pairs|
    ensures forall k :: 0 <= k < |pairs| ==> marked[k] == MarkPair(pairs[k], forward)
  {
    if pairs == [] then [] else [MarkPair(pairs[0], forward)] + MarkPairs(pairs[1..], forward)
  }

  function TracePairs(pairs: seq<Pair>): seq<Word> {
    if pairs == [] then [] else TracePair(pairs[0]) + TracePairs(pairs[1..])
  }

  /** What the four combinations of tags have traced. */
  lemma TracedByTag(p: Pair)
    requires p.v != 0 && (!Tag1(p.v) ==> p.fin != 0 && p.fin % 4 == 0)
    ensures TracePair(p) ==
            if Tag1(p.v) then (if Tag2(p.v) then [] else [ClearTag1(p.v)])
            else if Tag2(p.v) then [p.fin]
            else [p.v, p.fin]
  {
    if !Tag1(p.v) {
      UntaggedTraced(p.fin);
      assert ClearTag1(p.v) == p.v;
    }
  }

  lemma UntaggedTraced(word: Word)
    requires word != 0 && word % 4 == 0
    ensures TraceWord(word) == [word]
  {
    DivModUnique(word, 2, 2 * (word / 4), 0);
  }

  /** Marking keeps an object's tags through a move, when objects are aligned to at least four. */
  lemma TagsSurviveMarking(p: Pair, forward: ForwardingMap)
    requires forall o :: o in forward ==> forward[o] % 4 == 0 && forward[o] != 0
    ensures var q := MarkPair(p, forward);
            && (Tag1(q.v) <==> Tag1(p.v)) && (Tag2(q.v) <==> Tag2(p.v)) && (q.v == 0 <==> p.v == 0)
            && (Tag1(p.v) ==> q.fin == p.fin)
  {
  }

  /** Words of a list walked one by one: the list after marking and the objects traced. */
  datatype Walk = Walk(words: seq<Word>, traced: seq<Word>)

  /** How many words the walk passes at a word: a tag-1 word takes the next one along. */
  function Stride(word: Word): nat {
    if Tag1(word) then 2 else 1
  }

  function MarkWalk(tail: seq<Word>, forward: ForwardingMap): Walk
    decreases |tail|
  {
    if tail == [] then Walk([], [])
    else if !Tag1(tail[0]) || |tail| == 1 then
      var rest := MarkWalk(tail[1..], forward);
      Walk([MarkWord(tail[0], forward)] + rest.words, TraceWord(tail[0]) + rest.traced)
    else
      var rest := MarkWalk(tail[2..], forward);
      Walk([MarkWord(tail[0], forward), tail[1]] + rest.words, TraceWord(tail[0]) + rest.traced)
  }

  /** The walk comes out at the next pair. */
  predicate KeepsStep(p: Pair) {
    Tag1(p.v) || !Tag1(p.fin)
  }

  ghost predicate AllButLastKeepStep(pairs: seq<Pair>) {
    forall k :: 0 <= k < |pairs| - 1 ==> KeepsStep(pairs[k])
  }

  lemma FirstTagged(a: Word, b: Word, rest: seq<Word>, forward: ForwardingMap)
    requires Tag1(a)
    ensures var walk := MarkWalk(rest, forward);
            MarkWalk([a, b] + rest, forward)
            == Walk([MarkWord(a, forward), b] + walk.words, TraceWord(a) + walk.traced)
  {
    var words := [a, b] + rest;
    assert words[2..] == rest;
  }

  lemma OnePlain(a: Word, rest: seq<Word>, forward: ForwardingMap)
    requires !Tag1(a) || rest == []
    ensures var walk := MarkWalk(rest, forward);
            MarkWalk([a] + rest, forward) == Walk([MarkWord(a, forward)] + walk.words, TraceWord(a) + walk.traced)
  {
    var words := [a] + rest;
    assert words[1..] == rest;
  }

  lemma FirstPlain(a: Word, b: Word, rest: seq<Word>, forward: ForwardingMap)
    requires !Tag1(a) && (!Tag1(b) || rest == [])
    ensures var walk := MarkWalk(rest, forward);
            MarkWalk([a, b] + rest, forward)
            == Walk([MarkWord(a, forward), MarkWord(b, forward)] + walk.words,
                    TraceWord(a) + TraceWord(b) + walk.traced)
  {
    var walk := MarkWalk(rest, forward);
    assert [a, b] + rest == [a] + ([b] + rest);
    OnePlain(b, rest, forward);
    OnePlain(a, [b] + rest, forward);
    var x, y := MarkWord(a, forward), MarkWord(b, forward);
    Associate([x], [y], walk.words);
    assert [x] + [y] == [x, y];
    Associate(TraceWord(a), TraceWord(b), walk.traced);
  }

  lemma WalkFirstPair(p: Pair, rest: seq<Pair>, forward: ForwardingMap)
    requires KeepsStep(p) || rest == []
    ensures var walk, q := MarkWalk(Flatten(rest), forward), MarkPair(p, forward);
            MarkWalk([p.v, p.fin] + Flatten(rest), forward)
            == Walk([q.v, q.fin] + walk.words, TracePair(p) + walk.traced)
  {
    if Tag1(p.v) {
      FirstTagged(p.v, p.fin, Flatten(rest), forward);
      assert TraceWord(p.v) + [] == TraceWord(p.v);
    } else {
      FirstPlain(p.v, p.fin, Flatten(rest), forward);
    }
  }

  /** The word-level walk is the pair-level map whenever every pair but the last keeps in step. */
  lemma {:induction false} WalkIsPairMap(pairs: seq<Pair>, forward: ForwardingMap)
    requires AllButLastKeepStep(pairs)
    ensures MarkWalk(Flatten(pairs), forward).words == Flatten(MarkPairs(pairs, forward))
    ensures MarkWalk(Flatten(pairs), forward).traced == TracePairs(pairs)
  {
    if pairs != [] {
      RestKeepsStep(pairs);
      WalkIsPairMap(pairs[1..], forward);
      WalkFirstPair(pairs[0], pairs[1..], forward);
      FlattenFirst(MarkPair(pairs[0], forward), MarkPairs(pairs[1..], forward));
    }
  }

  /** No word is zero or tagged 2 where an object should be, as in a list that has been swept. */
  ghost predicate AllTraceable(pairs: seq<Pair>) {
    forall k :: 0 <= k < |pairs| ==> pairs[k].v != 0 && !Tag2(pairs[k].v)
  }

  /** On such a list keeping step is not only enough but needed: otherwise there is a way for the objects
    to move that the walk does not follow. */
  lemma WalkIsPairMapExactly(pairs: seq<Pair>)
    requires AllTraceable(pairs)
    ensures (forall forward :: MarkWalk(Flatten(pairs), forward).words == Flatten(MarkPairs(pairs, forward)))
            <==> AllButLastKeepStep(pairs)
  {
    if AllButLastKeepStep(pairs) {
      forall forward ensures MarkWalk(Flatten(pairs), forward).words == Flatten(MarkPairs(pairs, forward)) {
        WalkIsPairMap(pairs, forward);
      }
    } else {
      var forward := MissedMove(pairs);
    }
  }

  lemma {:induction false} MissedMove(pairs: seq<Pair>) returns (forward: ForwardingMap)
    requires AllTraceable(pairs) && !AllButLastKeepStep(pairs)
    ensures MarkWalk(Flatten(pairs), forward).words != Flatten(MarkPairs(pairs, forward))
  {
    RestKeepsStep(pairs);
    if KeepsStep(pairs[0]) {
      forward := MissedMove(pairs[1..]);
      var walk, rest := MarkWalk(Flatten(pairs[1..]), forward), MarkPairs(pairs[1..], forward);
      var q := MarkPair(pairs[0], forward);
      WalkFirstPair(pairs[0], pairs[1..], forward);
      FlattenFirst(q, rest);
      assert ([q.v, q.fin] + walk.words)[2..] == walk.words && ([q.v, q.fin] + Flatten(rest))[2..] == Flatten(rest);
    } else {
      var obj := ClearTag1(pairs[1].v);
      forward := map[obj := if obj == 8 then 16 else 8];
      SecondMissed(pairs, forward);
      assert MarkWord(pairs[1].v, forward) != pairs[1].v;
      FlattenThird(MarkPairs(pairs, forward));
    }
  }

  /** After a pair that does not keep step the second pair's object is passed untouched. */
  lemma SecondMissed(pairs: seq<Pair>, forward: ForwardingMap)
    requires |pairs| > 1 && !KeepsStep(pairs[0])
    ensures var words := MarkWalk(Flatten(pairs), forward).words; |words| > 2 && words[2] == pairs[1].v
  {
    var p, q := pairs[0], pairs[1];
    var later := [q.fin] + Flatten(pairs[2..]);
    assert pairs[1..][1..] == pairs[2..] && pairs[1..][0] == q;
    assert Flatten(pairs) == [p.v] + ([p.fin, q.v] + later);
    FirstTagged(p.fin, q.v, later, forward);
    OnePlain(p.v, [p.fin, q.v] + later, forward);
  }

  lemma FlattenThird(pairs: seq<Pair>)
    requires |pairs| > 1
    ensures |Flatten(pairs)| > 2 && Flatten(pairs)[2] == pairs[1].v
  {
    assert Flatten(pairs)[2..] == Flatten(pairs[1..]);
  }

  lemma FlattenFirst(p: Pair, rest: seq<Pair>)
    ensures Flatten([p] + rest) == [p.v, p.fin] + Flatten(rest)
  {
    assert ([p] + rest)[1..] == rest;
  }

  lemma RestKeepsStep(pairs: seq<Pair>)
    requires pairs != []
    ensures AllButLastKeepStep(pairs) <==> AllButLastKeepStep(pairs[1..]) && (|pairs| > 1 ==> KeepsStep(pairs[0]))
  {
    assert forall k :: 0 < k < |pairs| ==> pairs[k] == pairs[1..][k - 1];
    if AllButLastKeepStep(pairs[1..]) && (|pairs| > 1 ==> KeepsStep(pairs[0])) {
      forall k | 0 <= k < |pairs| - 1 ensures KeepsStep(pairs[k]) {
        if k > 0 {
          assert KeepsStep(pairs[1..][k - 1]);
        }
      }
    }
  }

  /** The walk over `tail` stops at index `i`. */
  predicate StopsAt(tail: seq<Word>, i: nat)
    decreases |tail|
  {
    && tail != []
    && (i == 0 || (i >= Stride(tail[0]) && StopsAt(Suffix(tail, Stride(tail[0])), i - Stride(tail[0]))))
  }

  /** The walk stops at the start of every pair. */
  ghost predicate InStep(pairs: seq<Pair>) {
    forall k :: 0 <= k < |pairs| ==> StopsAtPair(pairs, k)
  }

  predicate StopsAtPair(pairs: seq<Pair>, k: nat) {
    StopsAt(Flatten(pairs), 2 * k)
  }

  /** The walk stays in step with the pairs exactly when each pair but the last either has a native
    finalizer or a finalizer word without tag 1. */
  lemma {:induction false} InStepExact(pairs: seq<Pair>)
    ensures InStep(pairs) <==> AllButLastKeepStep(pairs)
    decreases |pairs|
  {
    if |pairs| > 1 {
      RestKeepsStep(pairs);
      InStepExact(pairs[1..]);
      if KeepsStep(pairs[0]) {
        InStepShift(pairs);
      } else {
        StopsAfter(pairs, 0);
        assert !StopsAtPair(pairs, 1);
      }
    }
  }

  lemma InStepShift(pairs: seq<Pair>)
    requires |pairs| > 1 && KeepsStep(pairs[0])
    ensures InStep(pairs) <==> InStep(pairs[1..])
  {
    if InStep(pairs) {
      forall k | 0 <= k < |pairs[1..]| ensures StopsAtPair(pairs[1..], k) {
        StopsNext(pairs, k);
        assert StopsAtPair(pairs, k + 1);
      }
    }
    if InStep(pairs[1..]) {
      forall k | 0 <= k < |pairs| ensures StopsAtPair(pairs, k) {
        if k > 0 {
          StopsNext(pairs, k - 1);
          assert StopsAtPair(pairs[1..], k - 1);
        }
      }
    }
  }

  /** The walk stops at a pair of the rest exactly when it stops at the same pair of the whole. */
  lemma StopsNext(pairs: seq<Pair>, k: nat)
    requires |pairs| > 1 && KeepsStep(pairs[0])
    ensures StopsAtPair(pairs, k + 1) <==> StopsAtPair(pairs[1..], k)
  {
    StopsAfter(pairs, 2 * k);
    assert 2 * (k + 1) == 2 * k + 2;
  }

  /** Past a pair that keeps step the walk goes on as over the rest; past one that does not, it misses
    the next pair's start. */
  lemma StopsAfter(pairs: seq<Pair>, i: nat)
    requires |pairs| > 1
    ensures KeepsStep(pairs[0]) ==> (StopsAt(Flatten(pairs), i + 2) <==> StopsAt(Flatten(pairs[1..]), i))
    ensures !KeepsStep(pairs[0]) ==> !StopsAt(Flatten(pairs), 2)
  {
    var words := Flatten(pairs);
    assert Suffix(words, 2) == Flatten(pairs[1..]);
    if !Tag1(pairs[0].v) {
      var tail := Suffix(words, 1);
      assert tail[0] == pairs[0].fin && Suffix(tail, 1) == Suffix(words, 2);
      assert StopsAt(words, i + 2) <==> StopsAt(tail, i + 1);
      assert StopsAt(words, 2) <==> StopsAt(tail, 1);
    }
  }

  /** A pair that loses step: the object of the second pair is never traced. */
  lemma OutOfStepExample()
    ensures !InStep([Pair(8, 17), Pair(24, 32)])
    ensures 24 !in MarkWalk(Flatten([Pair(8, 17), Pair(24, 32)]), map[]).traced
  {
    var pairs := [Pair(8, 17), Pair(24, 32)];
    InStepExact(pairs);
    assert !KeepsStep(pairs[0]);
    assert pairs[1..] == [Pair(24, 32)] && pairs[1..][1..] == [];
    assert Flatten(pairs) == [8] + ([17, 24] + [32]);
    OnePlain(32, [], map[]);
    FirstTagged(17, 24, [32], map[]);
    OnePlain(8, [17, 24] + [32], map[]);
    assert [32] + [] == [32];
  }

  // One whole pass

  /** The two shared lists between sweeping and marking. */
  datatype Swept = Swept(toFinalize: seq<Pair>, marked: seq<Pair>)

  function SweepLocal(pairs: seq<Pair>, s: Swept, live: set<Word>): Swept {
    Swept(s.toFinalize + Select(pairs, live, true, Freed), s.marked + Select(pairs, live, true, Old))
  }

  function SweepMarked(s: Swept, live: set<Word>): Swept {
    Swept(s.toFinalize + Select(s.marked, live, false, Freed), Select(s.marked, live, false, Retained))
  }

  /** Every thread-local list, then, in a full collection, the marked list as well. */
  function SweepPass(locals: seq<Pair>, s: Swept, live: set<Word>, nursery: bool): Swept {
    var swept := SweepLocal(locals, s, live);
    if nursery then swept else SweepMarked(swept, live)
  }

  lemma {:induction false} OldOnesAreRetained(pairs: seq<Pair>, live: set<Word>)
    ensures Select(Select(pairs, live, true, Old), live, false, Retained) == Select(pairs, live, true, Old)
    ensures Select(Select(pairs, live, true, Old), live, false, Freed) == []
  {
    if pairs != [] {
      OldOnesAreRetained(pairs[1..], live);
      var kept, rest := Keep(pairs[0], live, true, Old), Select(pairs[1..], live, true, Old);
      SelectConcat(kept, rest, live, false, Retained);
      SelectConcat(kept, rest, live, false, Freed);
      if kept != [] {
        assert kept[1..] == [];
        assert FateOf(kept[0], live, false) == Retained;
      }
    }
  }

  /** Where every pair ends: to_finalize gains exactly the pairs that are tagged 2 or dead, the marked
    list ends with exactly the live ones, and a pair moved in this pass is not swept a second time.
    A nursery collection leaves the old marked list as a prefix. */
  lemma PassPlaces(locals: seq<Pair>, s: Swept, live: set<Word>, nursery: bool)
    ensures var after := SweepPass(locals, s, live, nursery);
            if nursery then
              && after.toFinalize == s.toFinalize + Select(locals, live, true, Freed)
              && after.marked == s.marked + Select(locals, live, true, Old)
            else
              && after.toFinalize
                 == s.toFinalize + Select(locals, live, true, Freed) + Select(s.marked, live, false, Freed)
              && after.marked == Select(s.marked, live, false, Retained) + Select(locals, live, true, Old)
  {
    var moved := Select(locals, live, true, Old);
    OldOnesAreRetained(locals, live);
    SelectConcat(s.marked, moved, live, false, Freed);
    SelectConcat(s.marked, moved, live, false, Retained);
    assert Select(s.marked, live, false, Freed) + [] == Select(s.marked, live, false, Freed);
  }

  /** The pass loses no pair and duplicates none, whichever lists the pairs started in. */
  lemma PassConserves(locals: seq<Pair>, s: Swept, live: set<Word>, nursery: bool)
    ensures var after := SweepPass(locals, s, live, nursery);
            multiset(after.toFinalize) + multiset(after.marked)
            == multiset(NonZero(locals)) + multiset(s.toFinalize)
               + multiset(if nursery then s.marked else NonZero(s.marked))
  {
    PassPlaces(locals, s, live, nursery);
    SweepConserves(locals, live, true);
    NothingRetained(locals, live);
    SweepConserves(s.marked, live, false);
    NothingRetained(s.marked, live);
  }

  lemma CountConcat(a: seq<Pair>, b: seq<Pair>, p: Pair)
    ensures multiset(a + b)[p] == multiset(a)[p] + multiset(b)[p]
  {
  }

  lemma CountOne(q: Pair, p: Pair)
    ensures multiset([q])[p] == if q == p then 1 else 0
  {
  }

  lemma {:induction false} SelectCount(pairs: seq<Pair>, live: set<Word>, hasMarked: bool, fate: Fate, p: Pair)
    ensures multiset(Select(pairs, live, hasMarked, fate))[p]
            == if FateOf(p, live, hasMarked) == fate then multiset(pairs)[p] else 0
  {
    if pairs != [] {
      var kept, rest := Keep(pairs[0], live, hasMarked, fate), pairs[1..];
      SelectCount(rest, live, hasMarked, fate, p);
      CountConcat(kept, Select(rest, live, hasMarked, fate), p);
      CountConcat([pairs[0]], rest, p);
      CountOne(pairs[0], p);
      assert pairs == [pairs[0]] + rest;
    }
  }

  /** Tagged 2, or dead when the pass starts. */
  predicate MustRun(p: Pair, live: set<Word>) {
    Tag2(p.v) || ClearTags(p.v) !in live
  }

  /** For every non-zero pair, counting each time it occurs: all its swept copies, from the thread-local
    lists and in a full collection from the marked list, end in to_finalize if it must run and in the
    marked list if not, and neither list changes otherwise. */
  lemma PairPlaced(locals: seq<Pair>, s: Swept, p: Pair, live: set<Word>, nursery: bool)
    requires p.v != 0
    ensures var after := SweepPass(locals, s, live, nursery);
            var before := multiset(s.marked)[p];
            var swept := multiset(locals)[p] + if nursery then 0 else before;
            var kept := if nursery then before else 0;
            if MustRun(p, live) then
              multiset(after.toFinalize)[p] == multiset(s.toFinalize)[p] + swept && multiset(after.marked)[p] == kept
            else
              multiset(after.toFinalize)[p] == multiset(s.toFinalize)[p] && multiset(after.marked)[p] == kept + swept
  {
    PassPlaces(locals, s, live, nursery);
    SelectCount(locals, live, true, Freed, p);
    SelectCount(locals, live, true, Old, p);
    SelectCount(s.marked, live, false, Freed, p);
    SelectCount(s.marked, live, false, Retained, p);
  }

  /** The lists and the trace at the end of a pass. `start` is the first marked word to walk. */
  function MarkFrom(words: seq<Word>, start: nat, forward: ForwardingMap): Walk {
    if start > |words| then Walk(words, [])
    else
      var walk := MarkWalk(words[start..], forward);
      Walk(words[..start] + walk.words, walk.traced)
  }

  lemma NothingToMark(words: seq<Word>, start: nat, forward: ForwardingMap)
    requires |words| <= start
    ensures MarkFrom(words, start, forward) == Walk(words, [])
  {
    assert start == |words| ==> words[..start] + [] == words;
  }

  /** Marking from an even start marks whole pairs and leaves everything before untouched. */
  lemma MarkFromPairs(pairs: seq<Pair>, k: nat, forward: ForwardingMap)
    requires k <= |pairs| && AllButLastKeepStep(pairs[k..])
    ensures MarkFrom(Flatten(pairs), 2 * k, forward)
            == Walk(Flatten(pairs[..k] + MarkPairs(pairs[k..], forward)), TracePairs(pairs[k..]))
  {
    FlattenConcat(pairs[..k], pairs[k..]);
    assert pairs == pairs[..k] + pairs[k..];
    WalkIsPairMap(pairs[k..], forward);
    FlattenConcat(pairs[..k], MarkPairs(pairs[k..], forward));
  }

  /** Where the marked list is walked from: a nursery collection leaves out what it held before. */
  function MarkedStart(s: Swept, nursery: bool): nat {
    if nursery then |s.marked| else 0
  }

  /** When the swept lists keep step, the pass as a whole acts on pairs: every pair that stays or moves
    is marked once, and in a nursery collection the old marked pairs are left as they were. */
  lemma PassMarksPairs(locals: seq<Pair>, s: Swept, live: set<Word>, nursery: bool, forward: ForwardingMap)
    requires var after, start := SweepPass(locals, s, live, nursery), MarkedStart(s, nursery);
             && AllButLastKeepStep(after.toFinalize)
             && (start <= |after.marked| ==> AllButLastKeepStep(after.marked[start..]))
    ensures var after, start := SweepPass(locals, s, live, nursery), MarkedStart(s, nursery);
            && start <= |after.marked|
            && MarkFrom(Flatten(after.toFinalize), 0, forward)
               == Walk(Flatten(MarkPairs(after.toFinalize, forward)), TracePairs(after.toFinalize))
            && MarkFrom(Flatten(after.marked), 2 * start, forward)
               == Walk(Flatten(after.marked[..start] + MarkPairs(after.marked[start..], forward)),
                       TracePairs(after.marked[start..]))
            && (nursery ==> after.marked[..start] == s.marked)
  {
    var after, start := SweepPass(locals, s, live, nursery), MarkedStart(s, nursery);
    PassPlaces(locals, s, live, nursery);
    assert after.toFinalize[0..] == after.toFinalize && after.toFinalize[..0] == [];
    MarkFromPairs(after.toFinalize, 0, forward);
    MarkFromPairs(after.marked, start, forward);
    assert [] + MarkPairs(after.toFinalize, forward) == MarkPairs(after.toFinalize, forward);
  }

  ghost predicate NonZeroKeepStep(pairs: seq<Pair>) {
    forall p :: p in pairs && p.v != 0 ==> KeepsStep(p)
  }

  /** The swept lists keep step when the pairs they are made of do. Empty entries do not matter, nor,
    in a nursery collection, do the old marked pairs. */
  lemma SweptKeepStep(locals: seq<Pair>, s: Swept, live: set<Word>, nursery: bool)
    requires NonZeroKeepStep(locals) && (forall p :: p in s.toFinalize ==> KeepsStep(p))
    requires !nursery ==> NonZeroKeepStep(s.marked)
    ensures var after, start := SweepPass(locals, s, live, nursery), MarkedStart(s, nursery);
            && AllButLastKeepStep(after.toFinalize)
            && start <= |after.marked| && AllButLastKeepStep(after.marked[start..])
  {
    PassPlaces(locals, s, live, nursery);
    SelectOnly(locals, live, true, Freed);
    SelectOnly(locals, live, true, Old);
    SelectOnly(s.marked, live, false, Freed);
    SelectOnly(s.marked, live, false, Retained);
    var after, start := SweepPass(locals, s, live, nursery), MarkedStart(s, nursery);
    MembersKeepStep(after.toFinalize);
    var walked := after.marked[start..];
    assert nursery ==> walked == Select(locals, live, true, Old);
    MembersKeepStep(walked);
  }

  lemma MembersKeepStep(pairs: seq<Pair>)
    requires forall p :: p in pairs ==> KeepsStep(p)
    ensures AllButLastKeepStep(pairs)
  {
  }
}
