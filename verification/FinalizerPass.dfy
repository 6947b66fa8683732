/** The finalizer pass of one collection (julia_finalizer.rs, scan_finalizers_in_rust). */
module FinalizerPass {
  import opened Bits
  import opened FinalizerSpec
  import opened Finalizer
  import opened MarkFacts
  import opened Sequences

  /** The lists are well-formed, hold whole pairs, and no two are the same object. */
  ghost predicate Locals(lists: seq<ArrayList>, toFinalize: ArrayList, marked: ArrayList)
    reads lists, toFinalize, marked
  {
    && (forall i :: 0 <= i < |lists| ==>
                      lists[i].Valid() && lists[i].len % 2 == 0 && lists[i] != toFinalize && lists[i] != marked)
    && (forall i, j :: 0 <= i < j < |lists| ==> lists[i] != lists[j])
    && toFinalize != marked
    && toFinalize.Valid() && toFinalize.len % 2 == 0 && marked.Valid() && marked.len % 2 == 0
  }

  /** The words of each thread-local list. */
  ghost function WordsOfEach(lists: seq<ArrayList>): (words: seq<seq<Word>>)
    requires forall i :: 0 <= i < |lists| ==> lists[i].Valid()
    reads lists
    ensures |words| == |lists|
    ensures forall i :: 0 <= i < |lists| ==> words[i] == lists[i].Contents()
  {
    if lists == [] then [] else [lists[0].Contents()] + WordsOfEach(lists[1..])
  }

  ghost predicate AllEven(words: seq<seq<Word>>) {
    forall i :: 0 <= i < |words| ==> |words[i]| % 2 == 0
  }

  /** The pairs of all lists, in the order the threads are visited. */
  ghost function AllPairs(words: seq<seq<Word>>): seq<Pair>
    requires AllEven(words)
  {
    if words == [] then [] else Pairs(words[0]) + AllPairs(words[1..])
  }

  lemma {:induction false} AllPairsNext(words: seq<seq<Word>>, n: nat)
    requires AllEven(words) && n < |words|
    ensures AllPairs(words[..n + 1]) == AllPairs(words[..n]) + Pairs(words[n])
    decreases n
  {
    if n == 0 {
      assert words[..1][1..] == [] && words[..0] == [];
    } else {
      AllPairsNext(words[1..], n - 1);
      assert words[..n + 1][1..] == words[1..][..n] && words[..n][1..] == words[1..][..n - 1];
      Associate(Pairs(words[0]), AllPairs(words[1..][..n - 1]), Pairs(words[n]));
    }
  }

  lemma ChosenConcat(a: seq<Pair>, b: seq<Pair>, live: set<Word>, hasMarked: bool, fate: Fate)
    ensures Chosen(a + b, live, hasMarked, fate) == Chosen(a, live, hasMarked, fate) + Chosen(b, live, hasMarked, fate)
  {
    SelectConcat(a, b, live, hasMarked, fate);
    FlattenConcat(Select(a, live, hasMarked, fate), Select(b, live, hasMarked, fate));
  }

  /** The two shared lists and the flag. */
  datatype Shared = Shared(tf: seq<Word>, mk: seq<Word>, flag: int)

  /** What sweeping `pairs` from thread-local lists does to the shared lists. */
  ghost predicate LocalsSwept(was: Shared, now: Shared, pairs: seq<Pair>, live: set<Word>) {
    && now.tf == was.tf + Chosen(pairs, live, true, Freed)
    && now.mk == was.mk + Chosen(pairs, live, true, Old)
    && now.flag == if Chosen(pairs, live, true, Freed) != [] then 1 else was.flag
  }

  lemma OneMoreLocal(was: Shared, now: Shared, next: Shared, words: seq<seq<Word>>, n: nat, live: set<Word>)
    requires AllEven(words) && n < |words|
    requires LocalsSwept(was, now, AllPairs(words[..n]), live) && LocalsSwept(now, next, Pairs(words[n]), live)
    ensures LocalsSwept(was, next, AllPairs(words[..n + 1]), live)
  {
    var front, pairs := AllPairs(words[..n]), Pairs(words[n]);
    AllPairsNext(words, n);
    ChosenConcat(front, pairs, live, true, Freed);
    ChosenConcat(front, pairs, live, true, Old);
    Associate(was.tf, Chosen(front, live, true, Freed), Chosen(pairs, live, true, Freed));
    Associate(was.mk, Chosen(front, live, true, Old), Chosen(pairs, live, true, Old));
  }

  ghost function Share(toFinalize: ArrayList, marked: ArrayList, pending: PendingFlag): Shared
    requires toFinalize.Valid() && marked.Valid()
    reads toFinalize, marked, pending
  {
    Shared(toFinalize.Contents(), marked.Contents(), pending.value)
  }

  /** A thread-local list is always left empty. */
  method SweepOneLocal(list: ArrayList, toFinalize: ArrayList, marked: ArrayList, pending: PendingFlag, tracer: Tracer)
    requires list.Valid() && toFinalize.Valid() && marked.Valid() && list.len % 2 == 0
    requires list != toFinalize && list != marked && toFinalize != marked
    modifies list, toFinalize, marked, pending
    ensures list.Valid() && toFinalize.Valid() && marked.Valid() && list.len == 0
    ensures LocalsSwept(old(Share(toFinalize, marked, pending)), Share(toFinalize, marked, pending),
                        Pairs(old(list.Contents())), tracer.Live())
  {
    SweepFinalizerList(list, toFinalize, marked, pending, tracer);
    NothingRetained(Pairs(old(list.Contents())), tracer.Live());
  }

  method SweepNextLocal(ghost was: Shared, ghost words: seq<seq<Word>>, ghost n: nat, list: ArrayList,
                        toFinalize: ArrayList, marked: ArrayList, pending: PendingFlag, tracer: Tracer)
    requires list.Valid() && toFinalize.Valid() && marked.Valid()
    requires list != toFinalize && list != marked && toFinalize != marked
    requires AllEven(words) && n < |words| && list.Contents() == words[n]
    requires LocalsSwept(was, Share(toFinalize, marked, pending), AllPairs(words[..n]), tracer.Live())
    modifies list, toFinalize, marked, pending
    ensures list.Valid() && toFinalize.Valid() && marked.Valid() && list.len == 0
    ensures LocalsSwept(was, Share(toFinalize, marked, pending), AllPairs(words[..n + 1]), tracer.Live())
  {
    ghost var now := Share(toFinalize, marked, pending);
    SweepOneLocal(list, toFinalize, marked, pending, tracer);
    OneMoreLocal(was, now, Share(toFinalize, marked, pending), words, n, tracer.Live());
  }

  /** The first loop over the mutators. */
  method SweepLocals(lists: seq<ArrayList>, toFinalize: ArrayList, marked: ArrayList, pending: PendingFlag,
                     tracer: Tracer)
    requires Locals(lists, toFinalize, marked)
    modifies lists, toFinalize, marked, pending
    ensures forall i :: 0 <= i < |lists| ==> lists[i].Valid() && lists[i].len == 0
    ensures toFinalize.Valid() && marked.Valid()
    ensures LocalsSwept(old(Share(toFinalize, marked, pending)), Share(toFinalize, marked, pending),
                        AllPairs(old(WordsOfEach(lists))), tracer.Live())
  {
    ghost var live, words, was := tracer.Live(), WordsOfEach(lists), Share(toFinalize, marked, pending);
    ghost var now := was;
    var n := 0;
    while n < |lists|
      invariant n <= |lists| && toFinalize.Valid() && marked.Valid()
      invariant forall i :: 0 <= i < n ==> lists[i].Valid() && lists[i].len == 0
      invariant forall i :: n <= i < |lists| ==> unchanged(lists[i])
      invariant now == Share(toFinalize, marked, pending) && LocalsSwept(was, now, AllPairs(words[..n]), live)
    {
      assert lists[n].Valid() && lists[n].Contents() == words[n];
      SweepNextLocal(was, words, n, lists[n], toFinalize, marked, pending, tracer);
      now := Share(toFinalize, marked, pending);
      n := n + 1;
    }
    assert words[..n] == words;
  }

  /** Marking thread-local lists finds nothing to do after they have been swept. */
  method MarkLocals(lists: seq<ArrayList>, tracer: Tracer)
    requires forall i :: 0 <= i < |lists| ==> lists[i].Valid() && lists[i].len == 0
    modifies lists, tracer`traced
    ensures forall i :: 0 <= i < |lists| ==> lists[i].Valid() && lists[i].len == 0
    ensures tracer.traced == old(tracer.traced)
  {
    var n := 0;
    while n < |lists|
      invariant n <= |lists| && tracer.traced == old(tracer.traced)
      invariant forall i :: 0 <= i < |lists| ==> lists[i].Valid() && lists[i].len == 0
    {
      MarkFinlist(lists[n], 0, tracer);
      n := n + 1;
    }
  }

  /** The effect of the sweeping half of a pass on the shared lists. */
  ghost predicate PassSwept(was: Shared, now: Shared, locals: seq<Pair>, live: set<Word>, nursery: bool)
    requires |was.tf| % 2 == 0 && |was.mk| % 2 == 0
  {
    var before := Swept(Pairs(was.tf), Pairs(was.mk));
    var after := SweepPass(locals, before, live, nursery);
    && now.tf == Flatten(after.toFinalize) && now.mk == Flatten(after.marked)
    && now.flag == if after.toFinalize == before.toFinalize then was.flag else 1
  }

  lemma FlattenEmpty(pairs: seq<Pair>)
    ensures Flatten(pairs) == [] <==> pairs == []
  {
  }

  lemma NurseryPass(was: Shared, now: Shared, locals: seq<Pair>, live: set<Word>)
    requires |was.tf| % 2 == 0 && |was.mk| % 2 == 0 && LocalsSwept(was, now, locals, live)
    ensures PassSwept(was, now, locals, live, true)
  {
    var freed, aged := Select(locals, live, true, Freed), Select(locals, live, true, Old);
    FlattenOfPairs(was.tf);
    FlattenOfPairs(was.mk);
    FlattenConcat(Pairs(was.tf), freed);
    FlattenConcat(Pairs(was.mk), aged);
    FlattenEmpty(freed);
    Grown(Pairs(was.tf), freed);
  }

  lemma FullPass(was: Shared, mid: Shared, now: Shared, locals: seq<Pair>, live: set<Word>)
    requires |was.tf| % 2 == 0 && |was.mk| % 2 == 0 && LocalsSwept(was, mid, locals, live)
    requires |mid.mk| % 2 == 0
    requires SweptAll(Snapshot(mid.mk, mid.tf, [], mid.flag), Snapshot(now.mk, now.tf, [], now.flag), live, false)
    ensures PassSwept(was, now, locals, live, false)
  {
    NurseryPass(was, mid, locals, live);
    var before := Swept(Pairs(was.tf), Pairs(was.mk));
    var first := SweepLocal(locals, before, live);
    PairsOfFlatten(first.marked);
    var freed, again := Select(locals, live, true, Freed), Select(first.marked, live, false, Freed);
    FlattenConcat(first.toFinalize, again);
    FlattenEmpty(again);
    Grown(before.toFinalize, freed);
    Associate(before.toFinalize, freed, again);
    Grown(before.toFinalize, freed + again);
  }

  /** The sweeping half of a pass. */
  method SweepAllLists(lists: seq<ArrayList>, toFinalize: ArrayList, marked: ArrayList, pending: PendingFlag,
                       tracer: Tracer, nursery: bool)
    requires Locals(lists, toFinalize, marked)
    modifies lists, toFinalize, marked, pending
    ensures forall i :: 0 <= i < |lists| ==> lists[i].Valid() && lists[i].len == 0
    ensures toFinalize.Valid() && marked.Valid()
    ensures PassSwept(old(Share(toFinalize, marked, pending)), Share(toFinalize, marked, pending),
                      AllPairs(old(WordsOfEach(lists))), tracer.Live(), nursery)
  {
    ghost var locals, was := AllPairs(WordsOfEach(lists)), Share(toFinalize, marked, pending);
    SweepLocals(lists, toFinalize, marked, pending, tracer);
    ghost var mid := Share(toFinalize, marked, pending);
    NurseryPass(was, mid, locals, tracer.Live());
    if !nursery {
      SweepFinalizerList(marked, toFinalize, null, pending, tracer);
      FullPass(was, mid, Share(toFinalize, marked, pending), locals, tracer.Live());
    }
  }

  /** scan_finalizers_in_rust: liveness is that of the start of the pass, because nothing is traced
    until everything has been swept. In a nursery collection the marked list is walked only from
    where it ended before. */
  method ScanFinalizersInRust(lists: seq<ArrayList>, toFinalize: ArrayList, marked: ArrayList, pending: PendingFlag,
                              tracer: Tracer, nursery: bool)
    requires Locals(lists, toFinalize, marked)
    modifies lists, toFinalize, marked, pending, tracer`traced
    ensures forall i :: 0 <= i < |lists| ==> lists[i].Valid() && lists[i].len == 0
    ensures toFinalize.Valid() && marked.Valid()
    ensures var before := Swept(old(Pairs(toFinalize.Contents())), old(Pairs(marked.Contents())));
            var after := SweepPass(AllPairs(old(WordsOfEach(lists))), before, old(tracer.Live()), nursery);
            var mkWalk := MarkFrom(Flatten(after.marked), if nursery then old(marked.len) else 0, tracer.forward);
            var tfWalk := MarkFrom(Flatten(after.toFinalize), 0, tracer.forward);
            && marked.Contents() == mkWalk.words && toFinalize.Contents() == tfWalk.words
            && tracer.traced == old(tracer.traced) + mkWalk.traced + tfWalk.traced
            && pending.value == (if after.toFinalize == before.toFinalize then old(pending.value) else 1)
    ensures PassLeft(AllPairs(old(WordsOfEach(lists))),
                     Swept(old(Pairs(toFinalize.Contents())), old(Pairs(marked.Contents()))), old(tracer.Live()),
                     nursery, tracer.forward, toFinalize.Contents(), marked.Contents())
  {
    PassLeaves(AllPairs(WordsOfEach(lists)), Swept(Pairs(toFinalize.Contents()), Pairs(marked.Contents())),
               tracer.Live(), nursery, tracer.forward);
    var origMarkedLen := marked.len;
    SweepAllLists(lists, toFinalize, marked, pending, tracer, nursery);
    if !nursery {
      origMarkedLen := 0;
    }
    MarkLocals(lists, tracer);
    MarkFinlist(marked, origMarkedLen, tracer);
    MarkFinlist(toFinalize, 0, tracer);
  }
}
