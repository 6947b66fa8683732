/** The backtrace buffer (decoders in julia_scanning.rs, loop in scanning.rs).

  A buffer is a run of entries of varying length: a native instruction pointer takes one word; an
  extended entry is a marker word, a descriptor, then up to seven objects and up to seven integers. */
module Backtrace {
  import opened Bits
  import opened Sequences
  import opened Wrappers

  /** JL_BT_NON_PTR_ENTRY */
  const NON_PTR_ENTRY: Word := 0xffff_ffff_ffff_ffff

  datatype Entry =
    | NativeEntry(word: Word)
    | Extended(descriptor: Word, values: seq<Word>, uints: seq<Word>)
  {
    predicate Valid() {
      match this
      case NativeEntry(word) => word != NON_PTR_ENTRY
      case Extended(descriptor, values, uints) => |values| == JlVals(descriptor) && |uints| == UintVals(descriptor)
    }

    function Words(): (words: seq<Word>)
      ensures words != []
    {
      match this
      case NativeEntry(word) => [word]
      case Extended(descriptor, values, uints) => [NON_PTR_ENTRY, descriptor] + values + uints
    }

    function Values(): seq<Word> {
      if Extended? then values else []
    }
  }

  /** `descriptor & 0x7` */
  function JlVals(descriptor: Word): nat {
    descriptor % 8
  }

  /** `(descriptor >> 3) & 0x7` */
  function UintVals(descriptor: Word): nat {
    descriptor / 8 % 8
  }

  lemma DescriptorBits(descriptor: Word)
    ensures JlVals(descriptor) == BitAnd(descriptor, 7)
    ensures UintVals(descriptor) == BitAnd(ShiftRight(descriptor, 3), 7)
    ensures NON_PTR_ENTRY == WORD_VALUES - 1
  {
    assert Pow2(3) == 8;
    AndLowMask(descriptor, 3);
    ShiftDivides(descriptor, 3);
    AndLowMask(descriptor / 8, 3);
  }

  ghost predicate AllValid(entries: seq<Entry>) {
    forall k :: 0 <= k < |entries| ==> entries[k].Valid()
  }

  function Encode(entries: seq<Entry>): seq<Word> {
    if entries == [] then [] else entries[0].Words() + Encode(entries[1..])
  }

  /** The objects of all extended entries, in order. */
  function AllValues(entries: seq<Entry>): seq<Word> {
    if entries == [] then [] else entries[0].Values() + AllValues(entries[1..])
  }

  /** The entries a buffer holds, or None when its last entry is cut short. */
  function Parse(words: seq<Word>): Option<seq<Entry>>
    decreases |words|
  {
    if words == [] then Some([])
    else if words[0] != NON_PTR_ENTRY then PushFront(NativeEntry(words[0]), Parse(words[1..]))
    else if |words| < 2 || |words| < 2 + JlVals(words[1]) + UintVals(words[1]) then None
    else
      var v := 2 + JlVals(words[1]);
      var u := v + UintVals(words[1]);
      PushFront(Extended(words[1], words[2..v], words[v..u]), Parse(words[u..]))
  }

  function PushFront(entry: Entry, rest: Option<seq<Entry>>): Option<seq<Entry>> {
    match rest
    case None => None
    case Some(entries) => Some([entry] + entries)
  }

  /** Parsing inverts encoding, even when payload words equal the marker. */
  lemma {:induction false} ParseInvertsEncode(entries: seq<Entry>)
    requires AllValid(entries)
    ensures Parse(Encode(entries)) == Some(entries)
  {
    if entries != [] {
      var entry, rest := entries[0], Encode(entries[1..]);
      ParseInvertsEncode(entries[1..]);
      assert entry.Valid();
      assert [entry] + entries[1..] == entries;
      ParseOne(entry, rest);
    }
  }

  lemma ParseOne(entry: Entry, rest: seq<Word>)
    requires entry.Valid()
    ensures Parse(entry.Words() + rest) == PushFront(entry, Parse(rest))
  {
    var words := entry.Words() + rest;
    if entry.NativeEntry? {
      assert words[1..] == rest;
    } else {
      var v := 2 + |entry.values|;
      var u := v + |entry.uints|;
      assert words[2..v] == entry.values && words[v..u] == entry.uints && words[u..] == rest;
    }
  }

  /** The first entry of a buffer that parses. */
  lemma ParseHead(words: seq<Word>)
    requires words != [] && Parse(words).Some?
    ensures var entries := Parse(words).value;
            && entries != [] && entries[0].Valid()
            && var size := |entries[0].Words()|;
            && size <= |words| && words[..size] == entries[0].Words()
            && Parse(words[size..]) == Some(entries[1..])
            && (words[0] == NON_PTR_ENTRY <==> entries[0].Extended?)
            && (entries[0].Extended? ==> entries[0].descriptor == words[1])
  {
    var entries := Parse(words).value;
    if words[0] != NON_PTR_ENTRY {
      assert entries[1..] == Parse(words[1..]).value;
    } else {
      var v := 2 + JlVals(words[1]);
      var u := v + UintVals(words[1]);
      assert entries[1..] == Parse(words[u..]).value;
      assert words[..u] == [words[0], words[1]] + words[2..v] + words[v..u];
    }
  }

  /** A first word other than the all-ones marker is an entry by itself. */
  lemma FirstNative(words: seq<Word>)
    requires words != [] && words[0] != NON_PTR_ENTRY && Parse(words).Some?
    ensures Parse(words).value != [] && Parse(words).value[0] == NativeEntry(words[0])
    ensures Parse(words[1..]) == Some(Parse(words).value[1..])
  {
    Pushed(NativeEntry(words[0]), Parse(words[1..]));
  }

  /** The marker is followed by a descriptor, as many values as its low three bits say, and as many integers as the
    next three bits say; then the next entry starts. */
  lemma FirstExtended(words: seq<Word>, v: nat, u: nat)
    requires |words| >= 2 && words[0] == NON_PTR_ENTRY && Parse(words).Some?
    requires v == 2 + JlVals(words[1]) && u == v + UintVals(words[1])
    ensures v <= u <= |words| && Parse(words).value != []
    ensures Parse(words).value[0] == Extended(words[1], words[2..v], words[v..u])
    ensures Parse(words[u..]) == Some(Parse(words).value[1..])
  {
    Pushed(Extended(words[1], words[2..v], words[v..u]), Parse(words[u..]));
  }

  lemma Pushed(entry: Entry, rest: Option<seq<Entry>>)
    requires PushFront(entry, rest).Some?
    ensures rest.Some?
    ensures var entries := PushFront(entry, rest).value; entries != [] && entries[0] == entry && entries[1..] == rest.value
  {
  }

  /** A buffer that parses is the encoding of valid entries, so no other entries fit it. */
  lemma {:induction false} EncodeInvertsParse(words: seq<Word>)
    requires Parse(words).Some?
    ensures AllValid(Parse(words).value) && Encode(Parse(words).value) == words
    decreases |words|
  {
    if words != [] {
      var entries := Parse(words).value;
      var size := |entries[0].Words()|;
      ParseHead(words);
      EncodeInvertsParse(words[size..]);
      EncodeFront(entries, words, size);
    }
  }

  lemma EncodeFront(entries: seq<Entry>, words: seq<Word>, size: nat)
    requires entries != [] && entries[0].Valid() && AllValid(entries[1..])
    requires size <= |words| && words[..size] == entries[0].Words() && words[size..] == Encode(entries[1..])
    ensures AllValid(entries) && Encode(entries) == words
  {
    assert words == words[..size] + words[size..];
    forall k | 0 <= k < |entries| ensures entries[k].Valid() {
      assert k > 0 ==> entries[k] == entries[1..][k - 1];
    }
  }

  // The decoders, on the entry at index `i` of a buffer

  predicate IsNative(data: seq<Word>, i: nat)
    requires i < |data|
  {
    data[i] != NON_PTR_ENTRY
  }

  function EntrySize(data: seq<Word>, i: nat): nat
    requires i < |data| && (!IsNative(data, i) ==> i + 1 < |data|)
  {
    if IsNative(data, i) then 1 else 2 + JlVals(data[i + 1]) + UintVals(data[i + 1])
  }

  function EntryJlValue(data: seq<Word>, i: nat, j: nat): Word
    requires i + 2 + j < |data|
  {
    data[i + 2 + j]
  }

  /** One turn of the backtrace loop: the entry at index `i`, and the index of the next one. */
  method ReadEntry(data: seq<Word>, i: nat, ghost left: seq<Entry>) returns (values: seq<Word>, next: nat)
    requires i < |data| && At(data, i, left)
    ensures left != [] && values == left[0].Values()
    ensures i < next && At(data, next, left[1..])
  {
    EntryAt(data, i, left);
    var size := EntrySize(data, i);
    values := [];
    next := i + size;
    if IsNative(data, i) {
      return;
    }
    values := EntryObjects(data, i, JlVals(data[i + 1]));
  }

  /** The loop over one entry's objects. */
  method EntryObjects(data: seq<Word>, i: nat, njlvals: nat) returns (values: seq<Word>)
    requires i + 2 + njlvals <= |data|
    ensures values == data[i + 2..i + 2 + njlvals]
  {
    values := [];
    for j := 0 to njlvals
      invariant values == data[i + 2..i + 2 + j]
    {
      values := values + [EntryJlValue(data, i, j)];
    }
  }

  /** The backtrace loop: on a buffer of complete entries it visits each entry once and collects the
    objects of the extended ones. */
  method ScanBacktrace(data: seq<Word>, ghost entries: seq<Entry>) returns (nodes: seq<Word>)
    requires AllValid(entries) && data == Encode(entries)
    ensures nodes == AllValues(entries)
  {
    nodes := [];
    var i := 0;
    ghost var left := entries;
    while i < |data|
      invariant At(data, i, left)
      invariant nodes + AllValues(left) == AllValues(entries)
    {
      var values, next := ReadEntry(data, i, left);
      Associate(nodes, values, AllValues(left[1..]));
      nodes := nodes + values;
      i, left := next, left[1..];
    }
  }

  /** The loop stands at index `i` with the entries `left` to go. */
  ghost predicate At(data: seq<Word>, i: nat, left: seq<Entry>) {
    i <= |data| && data[i..] == Encode(left) && AllValid(left)
  }

  /** The entry the loop stands at is the first of those left. */
  lemma EntryAt(data: seq<Word>, i: nat, left: seq<Entry>)
    requires i < |data| && At(data, i, left)
    ensures left != []
    ensures !IsNative(data, i) ==> i + 1 < |data| && i + 2 + JlVals(data[i + 1]) <= |data|
    ensures left[0].Values() == if IsNative(data, i) then [] else data[i + 2..i + 2 + JlVals(data[i + 1])]
    ensures At(data, i + EntrySize(data, i), left[1..])
  {
    var entry, rest := left[0], Encode(left[1..]);
    assert entry.Valid();
    assert data[i..] == entry.Words() + rest;
    FrontWords(data, i, entry.Words(), rest);
    if entry.Extended? {
      EntryParts(entry, rest);
      ValuesAt(data, i, entry, rest);
    }
  }

  lemma ValuesAt(data: seq<Word>, i: nat, entry: Entry, rest: seq<Word>)
    requires entry.Extended? && i <= |data| && data[i..] == entry.Words() + rest
    ensures i + 2 + |entry.values| <= |data| && data[i + 2..i + 2 + |entry.values|] == entry.values
  {
    EntryParts(entry, rest);
    assert data[i + 2..i + 2 + |entry.values|] == data[i..][2..2 + |entry.values|];
  }

  lemma FrontWords(data: seq<Word>, i: nat, front: seq<Word>, rest: seq<Word>)
    requires i <= |data| && data[i..] == front + rest
    ensures i + |front| <= |data| && data[i + |front|..] == rest
    ensures forall k :: 0 <= k < |front| ==> data[i + k] == front[k]
  {
    assert data[i + |front|..] == data[i..][|front|..];
    assert forall k :: 0 <= k < |front| ==> data[i + k] == data[i..][k];
  }

  lemma EntryParts(entry: Entry, rest: seq<Word>)
    requires entry.Extended?
    ensures var words := entry.Words() + rest;
            && words[0] == NON_PTR_ENTRY && words[1] == entry.descriptor
            && words[2..2 + |entry.values|] == entry.values
            && |entry.Words()| == 2 + |entry.values| + |entry.uints|
  {
  }
}
