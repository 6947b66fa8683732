/** Finalizer scanning as the collector does it: growable lists changed in place (julia_finalizer.rs). */
module Finalizer {
  import opened Bits
  import opened FinalizerSpec
  import opened Sequences

  /** arraylist_t: the first `len` of its `max == |items|` words are in use. */
  class ArrayList {
    var len: nat
    var items: seq<Word>

    ghost predicate Valid()
      reads this
    {
      len <= |items|
    }

    /** The words in use. */
    ghost function Contents(): (words: seq<Word>)
      requires Valid()
      reads this
      ensures |words| == len
    {
      items[..len]
    }

    method Get(i: nat) returns (val: Word)
      requires Valid() && i < len
      ensures val == Contents()[i]
    {
      val := items[i];
    }

    method Set(i: nat, val: Word)
      requires Valid() && i < len
      modifies this`items
      ensures Valid() && Contents() == old(Contents())[i := val]
    {
      items := items[i := val];
    }

    /** arraylist_grow, of the C runtime: more room, the same contents. */
    method GrowItems(newLen: nat)
      requires Valid() && newLen > |items|
      modifies this`items
      ensures newLen <= |items| && old(items) <= items
    {
      items := items + seq(newLen, _ => 0);
    }

    method Grow(n: nat)
      requires Valid()
      modifies this
      ensures Valid() && len == old(len) + n && old(Contents()) <= Contents()
    {
      var newLen := len + n;
      if newLen > |items| {
        GrowItems(newLen);
      }
      len := newLen;
    }

    method Push(val: Word)
      requires Valid()
      modifies this
      ensures Valid() && Contents() == old(Contents()) + [val]
    {
      Grow(1);
      Set(len - 1, val);
    }

    /** The two pushes of a pair. */
    method PushPair(p: Pair)
      requires Valid()
      modifies this
      ensures Valid() && Contents() == old(Contents()) + [p.v, p.fin]
    {
      Push(p.v);
      Push(p.fin);
    }

    /** Moves the pair at `i` down to `j`, unless it is there already. */
    method MovePair(j: nat, i: nat)
      requires Valid() && j <= i && i + 1 < len && (j < i ==> j + 1 < i)
      modifies this`items
      ensures Valid() && Contents()[..j + 2] == old(Contents()[..j] + [items[i], items[i + 1]])
      ensures Contents()[i + 2..] == old(Contents()[i + 2..])
    {
      if j < i {
        items := items[j := items[i]];
        items := items[j + 1 := items[i + 1]];
      }
    }
  }

  /** jl_gc_have_pending_finalizers */
  class PendingFlag {
    var value: int
  }

  /** The collector: which objects survived, where they went, and what has been traced so far. */
  class Tracer {
    const survivors: set<Word>
    const forward: ForwardingMap
    var traced: seq<Word>

    constructor (survivors: set<Word>, forward: ForwardingMap)
      ensures this.survivors == survivors && this.forward == forward && traced == []
    {
      this.survivors, this.forward, traced := survivors, forward, [];
    }

    /** Live objects: the survivors, and whatever tracing has reached. */
    function Live(): set<Word>
      reads this
    {
      survivors + (set o | o in traced)
    }

    method TraceObject(obj: Word) returns (moved: Word)
      modifies this`traced
      ensures traced == old(traced) + [obj] && moved == Forward(forward, obj)
    {
      traced := traced + [obj];
      moved := Forward(forward, obj);
    }
  }

  ghost predicate ValidOrNone(list: ArrayList?)
    reads list
  {
    list != null ==> list.Valid()
  }

  ghost function WordsOf(list: ArrayList?): seq<Word>
    requires ValidOrNone(list)
    reads list
  {
    if list == null then [] else list.Contents()
  }

  ghost function Objects(list: ArrayList?): set<object> {
    if list == null then {} else {list as object}
  }

  ghost predicate Apart(list: ArrayList, toFinalize: ArrayList, marked: ArrayList?) {
    list != toFinalize && list != marked && toFinalize != marked
  }

  /** The words of the three lists, and the flag. */
  datatype Snapshot = Snapshot(list: seq<Word>, tf: seq<Word>, mk: seq<Word>, flag: int)

  ghost function Snap(list: ArrayList, toFinalize: ArrayList, marked: ArrayList?, pending: PendingFlag): Snapshot
    requires list.Valid() && toFinalize.Valid() && ValidOrNone(marked)
    reads list, toFinalize, marked, pending
  {
    Snapshot(list.Contents(), toFinalize.Contents(), WordsOf(marked), pending.value)
  }

  /** The effect of sweeping the pair at `i`: it joins the end of the list its fate names. */
  ghost predicate PairSwept(was: Snapshot, now: Snapshot, i: nat, j: nat, j': nat, live: set<Word>, hasMarked: bool)
    requires j <= i && i + 1 < |was.list|
  {
    var p := Pair(was.list[i], was.list[i + 1]);
    && now.tf == was.tf + Flatten(Keep(p, live, hasMarked, Freed))
    && now.mk == was.mk + Flatten(Keep(p, live, hasMarked, Old))
    && j' == j + 2 * |Keep(p, live, hasMarked, Retained)| && j' <= |now.list| == |was.list|
    && now.list[..j'] == was.list[..j] + Flatten(Keep(p, live, hasMarked, Retained))
    && now.list[i + 2..] == was.list[i + 2..]
    && now.flag == if FateOf(p, live, hasMarked) == Freed then 1 else was.flag
  }

  /** One pair of the sweep: `i` is read, `j` is where the next retained pair goes. */
  method SweepPair(list: ArrayList, i: nat, j: nat, toFinalize: ArrayList, marked: ArrayList?, pending: PendingFlag,
                   live: set<Word>)
    returns (j': nat)
    requires list.Valid() && toFinalize.Valid() && ValidOrNone(marked) && Apart(list, toFinalize, marked)
    requires j <= i && i + 1 < list.len && (j < i ==> j + 1 < i)
    modifies list`items, toFinalize, Objects(marked), pending
    ensures list.Valid() && toFinalize.Valid() && ValidOrNone(marked)
    ensures PairSwept(old(Snap(list, toFinalize, marked, pending)), Snap(list, toFinalize, marked, pending),
                      i, j, j', live, marked != null)
  {
    j' := j;
    var v0 := list.Get(i);
    if v0 == 0 {
      return;
    }
    var fin := list.Get(i + 1);
    var isFreed, isOld;
    if Tag2(v0) {
      isFreed, isOld := true, false;
    } else {
      isFreed := ClearTags(v0) !in live;
      isOld := marked != null && !isFreed;
    }
    OnePair(Pair(v0, fin));
    if isFreed || isOld {
    } else {
      list.MovePair(j, i);
      j' := j + 2;
    }
    if isFreed {
      toFinalize.PushPair(Pair(v0, fin));
      pending.value := 1;
    }
    if isOld {
      marked.PushPair(Pair(v0, fin));
    }
  }

  lemma OnePair(p: Pair)
    ensures Flatten([p]) == [p.v, p.fin] && Flatten([]) == []
  {
    assert [p][1..] == [];
  }

  lemma SweepGrows(pairs: seq<Pair>, k: nat, live: set<Word>, hasMarked: bool, fate: Fate)
    requires k < |pairs|
    ensures Select(pairs[..k + 1], live, hasMarked, fate)
            == Select(pairs[..k], live, hasMarked, fate) + Keep(pairs[k], live, hasMarked, fate)
    ensures Flatten(Select(pairs[..k + 1], live, hasMarked, fate))
            == Flatten(Select(pairs[..k], live, hasMarked, fate)) + Flatten(Keep(pairs[k], live, hasMarked, fate))
  {
    SelectNext(pairs, k, live, hasMarked, fate);
    FlattenConcat(Select(pairs[..k], live, hasMarked, fate), Keep(pairs[k], live, hasMarked, fate));
  }

  /** The words of the pairs with one fate. */
  ghost function Chosen(pairs: seq<Pair>, live: set<Word>, hasMarked: bool, fate: Fate): seq<Word> {
    Flatten(Select(pairs, live, hasMarked, fate))
  }

  /** The loop invariant of the sweep after `k` pairs: `s` is the state at the start, `now` the state
    reached, and the next retained pair goes to `j`. */
  ghost predicate InProgress(s: Snapshot, now: Snapshot, k: nat, j: nat, live: set<Word>, hasMarked: bool) {
    && |s.list| % 2 == 0 && |now.list| == |s.list| && j <= 2 * k <= |s.list|
    && now.list[2 * k..] == s.list[2 * k..]
    && var front := Pairs(s.list)[..k];
    && j == 2 * |Select(front, live, hasMarked, Retained)|
    && now.list[..j] == Chosen(front, live, hasMarked, Retained)
    && now.tf == s.tf + Chosen(front, live, hasMarked, Freed)
    && now.mk == s.mk + Chosen(front, live, hasMarked, Old)
    && now.flag == if Chosen(front, live, hasMarked, Freed) != [] then 1 else s.flag
  }

  lemma PairInPlace(now: seq<Word>, words: seq<Word>, k: nat)
    requires |words| % 2 == 0 && 2 * k + 1 < |words| == |now| && now[2 * k..] == words[2 * k..]
    ensures Pairs(words)[k] == Pair(now[2 * k], now[2 * k + 1])
    ensures now[2 * k + 2..] == words[2 * k + 2..]
  {
    PairAt(words, k);
    assert now[2 * k] == now[2 * k..][0] && now[2 * k + 1] == now[2 * k..][1];
    assert now[2 * k + 2..] == now[2 * k..][2..] && words[2 * k + 2..] == words[2 * k..][2..];
  }

  /** One turn of the sweep loop keeps its invariant. */
  lemma ProgressStep(s: Snapshot, was: Snapshot, now: Snapshot, k: nat, j: nat, j': nat, live: set<Word>,
                     hasMarked: bool)
    requires InProgress(s, was, k, j, live, hasMarked) && 2 * k < |s.list|
    requires PairSwept(was, now, 2 * k, j, j', live, hasMarked)
    ensures InProgress(s, now, k + 1, j', live, hasMarked)
  {
    var pairs := Pairs(s.list);
    var p, front := pairs[k], pairs[..k];
    PairInPlace(was.list, s.list, k);
    SweepGrows(pairs, k, live, hasMarked, Freed);
    SweepGrows(pairs, k, live, hasMarked, Old);
    SweepGrows(pairs, k, live, hasMarked, Retained);
    Associate(s.tf, Chosen(front, live, hasMarked, Freed), Flatten(Keep(p, live, hasMarked, Freed)));
    Associate(s.mk, Chosen(front, live, hasMarked, Old), Flatten(Keep(p, live, hasMarked, Old)));
  }

  /** The effect of a whole sweep: the three lists hold the retained, freed and old pairs in their
    original order, after what the two targets held before. */
  ghost predicate SweptAll(was: Snapshot, now: Snapshot, live: set<Word>, hasMarked: bool)
    requires |was.list| % 2 == 0
  {
    var pairs := Pairs(was.list);
    && now.list == Chosen(pairs, live, hasMarked, Retained)
    && now.tf == was.tf + Chosen(pairs, live, hasMarked, Freed)
    && now.mk == was.mk + Chosen(pairs, live, hasMarked, Old)
    && now.flag == if Chosen(pairs, live, hasMarked, Freed) != [] then 1 else was.flag
  }

  lemma ProgressEnds(s: Snapshot, now: Snapshot, k: nat, j: nat, live: set<Word>, hasMarked: bool)
    requires InProgress(s, now, k, j, live, hasMarked) && 2 * k == |s.list|
    ensures SweptAll(s, now.(list := now.list[..j]), live, hasMarked)
  {
    assert Pairs(s.list)[..k] == Pairs(s.list);
  }

  lemma ProgressStarts(s: Snapshot, live: set<Word>, hasMarked: bool)
    requires |s.list| % 2 == 0
    ensures InProgress(s, s, 0, 0, live, hasMarked)
  {
    assert s.tf + [] == s.tf && s.mk + [] == s.mk;
  }

  /** sweep_finalizer_list. `marked` is null when the swept list is the marked list itself. */
  method SweepFinalizerList(list: ArrayList, toFinalize: ArrayList, marked: ArrayList?, pending: PendingFlag,
                            tracer: Tracer)
    requires list.Valid() && toFinalize.Valid() && ValidOrNone(marked) && list.len % 2 == 0
    requires Apart(list, toFinalize, marked)
    modifies list, toFinalize, Objects(marked), pending
    ensures list.Valid() && toFinalize.Valid() && ValidOrNone(marked)
    ensures SweptAll(old(Snap(list, toFinalize, marked, pending)), Snap(list, toFinalize, marked, pending),
                     tracer.Live(), marked != null)
  {
    var live := tracer.Live();
    ghost var s, hasMarked := Snap(list, toFinalize, marked, pending), marked != null;
    ProgressStarts(s, live, hasMarked);
    if list.len == 0 {
      ProgressEnds(s, s, 0, 0, live, hasMarked);
      return;
    }
    var j: nat;
    ghost var k: nat;
    j, k := SweepLoop(list, toFinalize, marked, pending, live);
    ProgressEnds(s, Snap(list, toFinalize, marked, pending), k, j, live, hasMarked);
    list.len := j;
  }

  /** The two-index loop, up to where the retained pairs end. */
  method SweepLoop(list: ArrayList, toFinalize: ArrayList, marked: ArrayList?, pending: PendingFlag, live: set<Word>)
    returns (j: nat, ghost k: nat)
    requires list.Valid() && toFinalize.Valid() && ValidOrNone(marked) && Apart(list, toFinalize, marked)
    requires list.len % 2 == 0
    modifies list`items, toFinalize, Objects(marked), pending
    ensures list.Valid() && toFinalize.Valid() && ValidOrNone(marked)
    ensures InProgress(old(Snap(list, toFinalize, marked, pending)), Snap(list, toFinalize, marked, pending),
                       k, j, live, marked != null)
    ensures 2 * k == old(list.len)
  {
    ghost var s, hasMarked := Snap(list, toFinalize, marked, pending), marked != null;
    var i: nat := 0;
    j, k := 0, 0;
    ghost var now := s;
    ProgressStarts(s, live, hasMarked);
    while i < list.len
      invariant i == 2 * k && InProgress(s, now, k, j, live, hasMarked)
      invariant list.Valid() && toFinalize.Valid() && ValidOrNone(marked)
      invariant list.len == |s.list| && now == Snap(list, toFinalize, marked, pending)
    {
      j := SweepTurn(s, k, i, j, list, toFinalize, marked, pending, live);
      now := Snap(list, toFinalize, marked, pending);
      i, k := i + 2, k + 1;
    }
  }

  /** One turn of the loop. */
  method SweepTurn(ghost s: Snapshot, ghost k: nat, i: nat, j: nat, list: ArrayList, toFinalize: ArrayList,
                   marked: ArrayList?, pending: PendingFlag, live: set<Word>)
    returns (j': nat)
    requires list.Valid() && toFinalize.Valid() && ValidOrNone(marked) && Apart(list, toFinalize, marked)
    requires InProgress(s, Snap(list, toFinalize, marked, pending), k, j, live, marked != null)
    requires i == 2 * k < list.len
    modifies list`items, toFinalize, Objects(marked), pending
    ensures list.Valid() && toFinalize.Valid() && ValidOrNone(marked)
    ensures InProgress(s, Snap(list, toFinalize, marked, pending), k + 1, j', live, marked != null)
  {
    ghost var was := Snap(list, toFinalize, marked, pending);
    j' := SweepPair(list, i, j, toFinalize, marked, pending, live);
    ProgressStep(s, was, Snap(list, toFinalize, marked, pending), k, j, j', live, marked != null);
  }

  /** One turn of the mark loop: the word at `i` is traced and replaced, and the walk goes on at
    `next`, past the following word too when this one is tagged 1. */
  method MarkOne(list: ArrayList, i: nat, tracer: Tracer) returns (next: nat)
    requires list.Valid() && i < list.len
    modifies list`items, tracer`traced
    ensures list.Valid() && next == i + Stride(old(list.items[i]))
    ensures list.Contents() == old(list.Contents())[i := MarkWord(old(list.items[i]), tracer.forward)]
    ensures tracer.traced == old(tracer.traced) + TraceWord(old(list.items[i]))
  {
    next := i;
    var cur := list.Get(i);
    var curTag := 0;
    if cur == 0 {
      return i + 1;
    }
    var newObj := cur;
    if Tag1(cur) {
      next := next + 1;
      curTag := 1;
      newObj := ClearTag1(cur);
    }
    if Tag2(cur) {
      next := next + 1;
      return;
    }
    var traced := tracer.TraceObject(newObj);
    list.Set(i, if curTag == 1 then SetTag1(traced) else traced);
    next := next + 1;
  }

  /** mark_finlist: the word-level walk of the list from `start`. */
  method MarkFinlist(list: ArrayList, start: nat, tracer: Tracer)
    requires list.Valid()
    modifies list`items, tracer`traced
    ensures list.Valid()
    ensures var walk := MarkFrom(old(list.Contents()), start, tracer.forward);
            list.Contents() == walk.words && tracer.traced == old(tracer.traced) + walk.traced
  {
    if list.len <= start {
      NothingToMark(list.Contents(), start, tracer.forward);
      return;
    }
    MarkLoop(list, start, tracer);
  }

  /** The loop from `start` to the end of the list. */
  method MarkLoop(list: ArrayList, start: nat, tracer: Tracer)
    requires list.Valid() && start <= list.len
    modifies list`items, tracer`traced
    ensures list.Valid()
    ensures var walk := MarkFrom(old(list.Contents()), start, tracer.forward);
            list.Contents() == walk.words && tracer.traced == old(tracer.traced) + walk.traced
  {
    ghost var words, was := list.Contents(), tracer.traced;
    ghost var whole := MarkWalk(words[start..], tracer.forward);
    ghost var left := whole;
    assert Suffix(words, start) == words[start..];
    var i := start;
    while i < list.len
      invariant list.Valid() && list.len == |words|
      invariant Suffix(list.Contents(), i) == Suffix(words, i)
      invariant left == MarkWalk(Suffix(words, i), tracer.forward)
      invariant Prefix(list.Contents(), i) + left.words == words[..start] + whole.words
      invariant tracer.traced + left.traced == was + whole.traced
    {
      ghost var before, traced := list.Contents(), tracer.traced;
      SameWord(before, words, i);
      var next := MarkOne(list, i, tracer);
      MarkTurn(before, words, i, next, traced, tracer.forward);
      left := MarkWalk(Suffix(words, next), tracer.forward);
      i := next;
    }
  }

  lemma SameWord(before: seq<Word>, words: seq<Word>, i: nat)
    requires i < |before| == |words| && Suffix(before, i) == Suffix(words, i)
    ensures before[i] == words[i]
  {
    assert before[i] == Suffix(before, i)[0];
  }

  /** What one turn adds to what is done it takes from what is left. */
  lemma MarkTurn(before: seq<Word>, words: seq<Word>, i: nat, next: nat, traced: seq<Word>, forward: ForwardingMap)
    requires i < |words| == |before| && Suffix(before, i) == Suffix(words, i) && next == i + Stride(words[i])
    ensures var left, rest := MarkWalk(Suffix(words, i), forward), MarkWalk(Suffix(words, next), forward);
            var after := before[i := MarkWord(words[i], forward)];
            && Prefix(after, next) + rest.words == Prefix(before, i) + left.words
            && Suffix(after, next) == Suffix(words, next)
            && (traced + TraceWord(words[i])) + rest.traced == traced + left.traced
  {
    var mark, rest := MarkWord(words[i], forward), MarkWalk(Suffix(words, next), forward);
    WalkAt(words, i, forward);
    PrefixStep(before, words, i, next, mark);
    SuffixStep(before, words, i, next, mark);
    Associate(Prefix(before, i), [mark] + Passed(words, i), rest.words);
    Associate(traced, TraceWord(words[i]), rest.traced);
  }

  ghost function Prefix(words: seq<Word>, i: nat): seq<Word> {
    if i <= |words| then words[..i] else words
  }

  /** The words the walk passes untouched after the one at `i`. */
  ghost function Passed(words: seq<Word>, i: nat): seq<Word>
    requires i < |words|
  {
    if Tag1(words[i]) && i + 1 < |words| then [words[i + 1]] else []
  }

  lemma WalkAt(words: seq<Word>, i: nat, forward: ForwardingMap)
    requires i < |words|
    ensures var walk := MarkWalk(Suffix(words, i), forward);
            var rest := MarkWalk(Suffix(words, i + Stride(words[i])), forward);
            && walk.words == [MarkWord(words[i], forward)] + Passed(words, i) + rest.words
            && walk.traced == TraceWord(words[i]) + rest.traced
  {
    var mark := MarkWord(words[i], forward);
    if Tag1(words[i]) && i + 1 < |words| {
      SuffixTwo(words, i);
      FirstTagged(words[i], words[i + 1], Suffix(words, i + 2), forward);
      assert [mark] + [words[i + 1]] == [mark, words[i + 1]];
    } else {
      SuffixOne(words, i);
      OnePlain(words[i], Suffix(words, i + Stride(words[i])), forward);
      assert [mark] + [] == [mark];
    }
  }

  lemma SuffixOne(words: seq<Word>, i: nat)
    requires i < |words| && (Tag1(words[i]) ==> i + 1 == |words|)
    ensures Suffix(words, i) == [words[i]] + Suffix(words, i + Stride(words[i]))
  {
  }

  lemma SuffixTwo(words: seq<Word>, i: nat)
    requires i + 1 < |words|
    ensures Suffix(words, i) == [words[i], words[i + 1]] + Suffix(words, i + 2)
  {
  }

  lemma PrefixStep(before: seq<Word>, words: seq<Word>, i: nat, next: nat, mark: Word)
    requires i < |words| == |before| && Suffix(before, i) == Suffix(words, i) && next == i + Stride(words[i])
    ensures Prefix(before[i := mark], next) == Prefix(before, i) + ([mark] + Passed(words, i))
  {
    if Tag1(words[i]) && i + 1 < |words| {
      assert before[i + 1] == Suffix(before, i)[1] == words[i + 1];
      assert [mark] + [words[i + 1]] == [mark, words[i + 1]];
    }
  }

  lemma SuffixStep(before: seq<Word>, words: seq<Word>, i: nat, next: nat, mark: Word)
    requires i < |words| == |before| && Suffix(before, i) == Suffix(words, i) && i < next
    ensures Suffix(before[i := mark], next) == Suffix(words, next)
  {
    forall k | next <= k < |words| ensures before[k] == words[k] {
      assert before[k] == Suffix(before, i)[k - i] && words[k] == Suffix(words, i)[k - i];
    }
  }
}
