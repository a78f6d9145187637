/**
 The label dictionary object: labels keep the bit they were first given.
 */
module LabelDictionary {
  import opened Names
  import opened Characters
  import opened Bits
  import opened LabelMasks

  // ----- growing a vocabulary

  /** `add`: the next free position, unless the label has one or all are taken. */
  function Added(v: seq<string>, l: string, maxBits: nat): seq<string>
  {
    if l in v || |v| >= maxBits then v else v + [l]
  }

  /** The vocabulary after the adds of `ls`, which stop at the first refused. */
  function Extended(v: seq<string>, ls: seq<string>, maxBits: nat): seq<string>
    decreases |ls|
  {
    if ls == [] || (ls[0] !in v && |v| >= maxBits) then v
    else Extended(Added(v, ls[0], maxBits), ls[1..], maxBits)
  }

  /** However labels are added, old assignments never move. */
  lemma {:induction false} ExtendedKeeps(v: seq<string>, ls: seq<string>, maxBits: nat)
    requires NoDuplicates(v) && |v| <= maxBits
    ensures v <= Extended(v, ls, maxBits) && NoDuplicates(Extended(v, ls, maxBits))
    ensures |Extended(v, ls, maxBits)| <= maxBits
    decreases |ls|
  {
    if !(ls == [] || (ls[0] !in v && |v| >= maxBits)) {
      ExtendedKeeps(Added(v, ls[0], maxBits), ls[1..], maxBits);
    }
  }

  // ----- masks of a small vocabulary

  /** All masks below `n` with bit `k`, ascending. */
  function WithBit(n: nat, k: nat): seq<nat>
  {
    if n == 0 then [] else WithBit(n - 1, k) + (if Bit(n - 1, k) then [n - 1] else [])
  }

  lemma {:induction false} WithBitFacts(n: nat, k: nat)
    ensures |WithBit(n, k)| == CountWithBit(n, k)
    ensures forall m: nat :: m in WithBit(n, k) <==> m < n && Bit(m, k)
  {
    if n > 0 { WithBitFacts(n - 1, k); }
  }

  /** For a vocabulary of n labels in one chunk, `masks_containing` lists exactly
      2^(n-1) masks, and the mask of a label set is among them exactly when the
      set has the label. */
  lemma MasksContainingExact(v: seq<string>, labels: set<string>, mask: nat, p: nat)
    requires NoDuplicates(v) && p < |v| <= BITS_PER_CHUNK && Encodes(v, labels, [mask])
    ensures |WithBit(Pow2(|v|), p)| == Pow2(|v| - 1)
    ensures mask in WithBit(Pow2(|v|), p) <==> v[p] in labels
  {
    WithBitFacts(Pow2(|v|), p);
    HalfHaveBit(|v|, p);
    var chunks := [mask];
    assert Bit(chunks[0], p) <==> Marked(v, labels, BITS_PER_CHUNK * 0 + p);
    forall b: nat | Bit(mask, b) ensures b < |v| {
      assert Bit(chunks[0], b);
    }
    if mask >= Pow2(|v|) {
      HighBit(mask, |v|);
      assert false;
    }
  }

  // ----- persistence

  /** The saved file; older files may lack the last two numbers. */
  datatype Saved = Saved(name: string, version: int, bits: map<string, int>,
                         bitsPerChunk: Option<nat>, maxChunks: Option<nat>)

  /** Positions 0, 1, ... each held by one label. */
  ghost predicate Contiguous(bits: map<string, int>)
  {
    exists v: seq<string> :: IsVocabularyOf(v, bits)
  }

  ghost predicate IsVocabularyOf(v: seq<string>, bits: map<string, int>)
  {
    && NoDuplicates(v) && Elements(v) == bits.Keys
    && forall k :: 0 <= k < |v| ==> v[k] in bits && bits[v[k]] == k
  }

  lemma VocabularyUnique(v: seq<string>, w: seq<string>, bits: map<string, int>)
    requires IsVocabularyOf(v, bits) && IsVocabularyOf(w, bits)
    ensures v == w
  {
    SizeOfElements(v);
    SizeOfElements(w);
    forall k | 0 <= k < |v| ensures v[k] == w[k] {
      assert v[k] in Elements(w);
      var j :| 0 <= j < |w| && w[j] == v[k];
    }
  }

  lemma {:induction false} SizeOfElements<T>(q: seq<T>)
    requires NoDuplicates(q)
    ensures |Elements(q)| == |q|
  {
    if q != [] {
      SizeOfElements(q[1..]);
      assert q == [q[0]] + q[1..];
      ElementsConcat([q[0]], q[1..]);
      assert Elements(q) == {q[0]} + Elements(q[1..]);
    }
  }

  function Width(s: Saved): nat
  {
    if s.bitsPerChunk.Some? then s.bitsPerChunk.value else BITS_PER_CHUNK
  }

  function Capacity(s: Saved): nat
  {
    BITS_PER_CHUNK * if s.maxChunks.Some? then s.maxChunks.value else DEFAULT_MAX_CHUNKS
  }

  /** The two tables are inverse to each other and list `v` by position. */
  ghost predicate Tables(v: seq<string>, toBit: map<string, int>, toLabel: map<int, string>)
  {
    && IsVocabularyOf(v, toBit) && |toBit| == |v|
    && forall k :: if 0 <= k < |v| then k in toLabel && toLabel[k] == v[k] else k !in toLabel
  }

  lemma TablesAdd(v: seq<string>, toBit: map<string, int>, toLabel: map<int, string>, l: string)
    requires Tables(v, toBit, toLabel) && l !in toBit
    ensures l !in v && Tables(v + [l], toBit[l := |v|], toLabel[|v| := l])
  {
    VocabularyAdd(v, toBit, l);
  }

  lemma VocabularyAdd(v: seq<string>, toBit: map<string, int>, l: string)
    requires IsVocabularyOf(v, toBit) && l !in toBit
    ensures l !in v && IsVocabularyOf(v + [l], toBit[l := |v|])
  {
    assert l !in Elements(v);
    ElementsConcat(v, [l]);
  }

  lemma TablesFind(v: seq<string>, toBit: map<string, int>, toLabel: map<int, string>, l: string)
    requires Tables(v, toBit, toLabel)
    ensures l in v <==> l in toBit
    ensures l in toBit ==> 0 <= toBit[l] < |v| && v[toBit[l]] == l
  {
    assert l in v <==> l in Elements(v);
    if l in v {
      var k :| 0 <= k < |v| && v[k] == l;
    }
  }

  /** One turn of reading the bits of a chunk. */
  lemma DecodeTurn(v: seq<string>, chunks: seq<nat>, ci: nat, b: nat)
    requires ci < |chunks| && b < BITS_PER_CHUNK
    ensures var p := ci * BITS_PER_CHUNK + b;
      DecodeFrom(v, chunks, p)
      == (if BitAnd(chunks[ci], Pow2(b)) != 0 && p < |v| then [v[p]] else []) + DecodeFrom(v, chunks, p + 1)
  {
    hide BitAnd, Pow2, Bit;
    AndPow2(chunks[ci], b);
    PositionSplit(ci * BITS_PER_CHUNK + b, ci, b);
  }

  lemma DecodedAll(v: seq<string>, chunks: seq<nat>)
    ensures DecodeFrom(v, chunks, BITS_PER_CHUNK * |chunks|) == [] && Decode(v, chunks) == DecodeFrom(v, chunks, 0)
  {
  }

  /** The budget of masks lets a vocabulary of up to thirteen labels be enumerated. */
  lemma ThirteenLabels(n: nat)
    ensures 0 < n <= BITS_PER_CHUNK && Pow2(n - 1) <= ENUMERATION_BUDGET <==> 1 <= n <= 13
  {
    assert Pow2(6) == 64;
    assert Pow2(12) == 4096;
    if n > 13 {
      Pow2Grows(12, n - 1);
    } else if n > 0 {
      Pow2Grows(n - 1, 12);
    }
  }

  lemma {:induction false} Pow2Grows(j: nat, k: nat)
    requires j <= k
    ensures Pow2(j) <= Pow2(k) && (j < k ==> Pow2(j) < Pow2(k))
  {
    if j < k {
      Pow2Grows(j, k - 1);
    }
  }

  class Dictionary {
    const name: string
    const version: int
    const maxChunks: nat
    var toBit: map<string, int>
    var toLabel: map<int, string>
    /** the labels in bit order */
    ghost var vocabulary: seq<string>

    ghost predicate Valid()
      reads this
    {
      Tables(vocabulary, toBit, toLabel) && |vocabulary| <= MaxBits()
    }

    function MaxBits(): nat
    {
      BITS_PER_CHUNK * maxChunks
    }

    constructor (name: string, version: int, maxChunks: nat)
      ensures Valid() && vocabulary == []
      ensures this.name == name && this.version == version && this.maxChunks == maxChunks
    {
      this.name, this.version, this.maxChunks := name, version, maxChunks;
      toBit, toLabel, vocabulary := map[], map[], [];
    }

    method Add(l: string) returns (r: Result<nat>)
      requires Valid()
      modifies this
      ensures Valid() && vocabulary == Added(old(vocabulary), l, MaxBits())
      ensures r == if l in vocabulary then Ok(toBit[l]) else Fail(VocabularyFull)
    {
      TablesFind(vocabulary, toBit, toLabel, l);
      if l in toBit {
        return Ok(toBit[l]);
      }
      var pos := |toBit|;
      if pos >= MaxBits() {
        return Fail(VocabularyFull);
      }
      TablesAdd(vocabulary, toBit, toLabel, l);
      toBit := toBit[l := pos];
      toLabel := toLabel[pos := l];
      vocabulary := vocabulary + [l];
      r := Ok(pos);
    }

    method Extend(ls: seq<string>) returns (r: Result<()>)
      requires Valid()
      modifies this
      ensures Valid() && vocabulary == Extended(old(vocabulary), ls, MaxBits())
      ensures r == if forall l :: l in ls ==> l in vocabulary then Ok(()) else Fail(VocabularyFull)
    {
      for i := 0 to |ls|
        invariant Valid() && Extended(old(vocabulary), ls, MaxBits()) == Extended(vocabulary, ls[i..], MaxBits())
        invariant forall k :: 0 <= k < i ==> ls[k] in vocabulary
      {
        assert ls[i..][0] == ls[i] && ls[i..][1..] == ls[i + 1..];
        var added := Add(ls[i]);
        if added.Fail? {
          return Fail(added.error);
        }
      }
      r := Ok(());
    }
 
    /** Label set to chunks; a label the dictionary lacks is refused. */
    method Chunks(labels: seq<string>) returns (r: Result<seq<nat>>)
      requires Valid()
      ensures r.Ok? <==> forall l :: l in labels ==> l in vocabulary
      ensures r.Ok? ==> Encodes(vocabulary, Elements(labels), r.value)
      ensures r.Fail? ==> r.error.UnknownLabel? && r.error.name in labels && r.error.name !in vocabulary
    {
      var out: seq<nat> := seq(ChunkCount(|toBit|), _ => 0);
      EncodesNothing(vocabulary, out);
      ghost var done: set<string> := {};
      for i := 0 to |labels|
        invariant done == Elements(labels[..i]) && forall x :: x in done ==> x in vocabulary
        invariant Encodes(vocabulary, done, out)
      {
        var l := labels[i];
        TakeNext(labels, i);
        TablesFind(vocabulary, toBit, toLabel, l);
        if l !in toBit {
          return Fail(UnknownLabel(l));
        }
        var b := toBit[l];
        EncodesOneMore(vocabulary, done, out, b);
        var ci := b / BITS_PER_CHUNK;
        out := out[ci := BitOr(out[ci], Pow2(b % BITS_PER_CHUNK))];
        done := done + {l};
      }
      assert labels[..|labels|] == labels;
      assert forall l :: l in labels ==> l in done;
      r := Ok(out);
    }

    /** Label set to one integer, refused once the vocabulary needs two chunks. */
    method Mask(labels: seq<string>) returns (r: Result<nat>)
      requires Valid()
      ensures |vocabulary| > BITS_PER_CHUNK ==> r == Fail(TooWide)
      ensures r.Ok? <==> |vocabulary| <= BITS_PER_CHUNK && forall l :: l in labels ==> l in vocabulary
      ensures r.Ok? ==> Encodes(vocabulary, Elements(labels), [r.value])
    {
      if |toBit| > BITS_PER_CHUNK {
        return Fail(TooWide);
      }
      var m: nat := 0;
      ghost var done: set<string> := {};
      EncodesNothing(vocabulary, [m]);
      for i := 0 to |labels|
        invariant done == Elements(labels[..i]) && forall x :: x in done ==> x in vocabulary
        invariant Encodes(vocabulary, done, [m])
      {
        var l := labels[i];
        TakeNext(labels, i);
        TablesFind(vocabulary, toBit, toLabel, l);
        if l !in toBit {
          return Fail(UnknownLabel(l));
        }
        EncodesOneMore(vocabulary, done, [m], toBit[l]);
        PositionSplit(toBit[l], 0, toBit[l]);
        assert [m][0 := BitOr(m, Pow2(toBit[l]))] == [BitOr(m, Pow2(toBit[l]))];
        m := BitOr(m, Pow2(toBit[l]));
        done := done + {l};
      }
      assert labels[..|labels|] == labels;
      assert forall l :: l in labels ==> l in done;
      r := Ok(m);
    }

    /** Chunks back to labels, in bit order. */
    method Labels(chunks: seq<nat>) returns (out: seq<string>)
      requires Valid()
      ensures out == Decode(vocabulary, chunks)
    {
      hide BitAnd, Pow2, DecodeFrom, Decode;
      out := [];
      DecodedAll(vocabulary, chunks);
      for ci := 0 to |chunks|
        invariant out + DecodeFrom(vocabulary, chunks, BITS_PER_CHUNK * ci) == Decode(vocabulary, chunks)
      {
        var base := ci * BITS_PER_CHUNK;
        for b := 0 to BITS_PER_CHUNK
          invariant out + DecodeFrom(vocabulary, chunks, base + b) == Decode(vocabulary, chunks)
        {
          ghost var rest := DecodeFrom(vocabulary, chunks, base + b + 1);
          DecodeTurn(vocabulary, chunks, ci, b);
          if BitAnd(chunks[ci], Pow2(b)) != 0 && base + b in toLabel {
            assert out + ([vocabulary[base + b]] + rest) == (out + [vocabulary[base + b]]) + rest;
            out := out + [toLabel[base + b]];
          }
        }
      }
    }

    /** The subset test on the chunk fields, chunks asking for nothing left out. */
    method ChunkFilter(labels: seq<string>, prefix: string, bind: string) returns (r: Result<Filter>)
      requires Valid()
      ensures r.Ok? <==> forall l :: l in labels ==> l in vocabulary
      ensures r.Ok? ==> exists want :: Encodes(vocabulary, Elements(labels), want)
                                        && r.value == FilterOf(want, prefix, bind, |want|)
    {
      var chunks := Chunks(labels);
      if chunks.Fail? {
        return Fail(chunks.error);
      }
      var want := chunks.value;
      var parts: seq<Test>, bv: map<string, nat> := [], map[];
      for i := 0 to |want|
        invariant Filter(parts, bv) == FilterOf(want, prefix, bind, i)
      {
        if want[i] != 0 {
          parts := parts + [Test(Numbered(prefix, i), Numbered(bind, i))];
          bv := bv[Numbered(bind, i) := want[i]];
        }
      }
      r := Ok(Filter(parts, bv));
    }

    predicate Enumerable()
      reads this
    {
      0 < |toBit| <= BITS_PER_CHUNK && Pow2(|toBit| - 1) <= ENUMERATION_BUDGET
    }

    /** Every mask with the label's bit, for small vocabularies. */
    method MasksContaining(l: string) returns (r: Result<seq<nat>>)
      requires Valid()
      ensures r.Ok? <==> 1 <= |vocabulary| <= 13 && l in vocabulary
      ensures r.Ok? ==> l in toBit && toBit[l] >= 0 && r.value == WithBit(Pow2(|vocabulary|), toBit[l])
    {
      ThirteenLabels(|toBit|);
      if !Enumerable() {
        return Fail(NotEnumerable);
      }
      TablesFind(vocabulary, toBit, toLabel, l);
      if l !in toBit {
        return Fail(UnknownLabel(l));
      }
      var bit := Pow2(toBit[l]);
      var out: seq<nat> := [];
      for m := 0 to Pow2(|toBit|)
        invariant out == WithBit(m, toBit[l])
      {
        AndPow2(m, toBit[l]);
        if BitAnd(m, bit) != 0 {
          out := out + [m];
        }
      }
      r := Ok(out);
    }

    method Save() returns (s: Saved)
      requires Valid()
      ensures s == Saved(name, version, toBit, Some(BITS_PER_CHUNK), Some(maxChunks))
    {
      s := Saved(name, version, toBit, Some(BITS_PER_CHUNK), Some(maxChunks));
    }
  }

  /** A valid dictionary with the file's name, version and capacity. */
  ghost predicate Restores(d: Dictionary, s: Saved)
    reads d
  {
    d.Valid() && d.name == s.name && d.version == s.version && d.MaxBits() == Capacity(s)
  }

  /** A file is loaded exactly when its chunk width is this build's, its
      positions are contiguous and they fit; the dictionary is then the one
      saved. */
  method Load(s: Saved) returns (r: Result<Dictionary>)
    ensures r.Ok? <==>
      && (s.bitsPerChunk.Some? ==> s.bitsPerChunk.value == 32)
      && Contiguous(s.bits) && |s.bits| <= if s.maxChunks.Some? then 32 * s.maxChunks.value else 256
    ensures r.Fail? && s.bitsPerChunk.Some? && s.bitsPerChunk.value != 32 ==> r.error == WidthMismatch
    ensures r.Ok? ==> fresh(r.value) && Restores(r.value, s) && r.value.toBit == s.bits
  {
    if Width(s) != BITS_PER_CHUNK {
      return Fail(WidthMismatch);
    }
    var d := new Dictionary(s.name, s.version, if s.maxChunks.Some? then s.maxChunks.value else DEFAULT_MAX_CHUNKS);
    var todo := s.bits;
    while todo != map[]
      invariant fresh(d) && Restores(d, s)
      invariant Loading(s.bits, d.vocabulary, todo)
      decreases |todo|
    {
      var rest := LoadNext(s, d, todo);
      if rest.Fail? {
        return Fail(rest.error);
      }
      todo := rest.value;
    }
    LoadingEnds(s.bits, d.vocabulary, d.toBit, todo);
    r := Ok(d);
  }

  /** Adds the lowest remaining entry; returns those still to add. */
  method LoadNext(s: Saved, d: Dictionary, todo: map<string, int>) returns (r: Result<map<string, int>>)
    requires Restores(d, s) && Loading(s.bits, d.vocabulary, todo) && todo != map[]
    modifies d
    ensures r.Ok? ==> Restores(d, s) && Loading(s.bits, d.vocabulary, r.value) && |r.value| < |todo|
    ensures r.Fail? ==> !Contiguous(s.bits) || |s.bits| > Capacity(s)
  {
    var l := LowestPosition(todo);
    LoadingStep(s.bits, d.vocabulary, todo, l);
    if todo[l] != |d.toBit| {
      return Fail(Corrupt);
    }
    var added := d.Add(l);
    if added.Fail? {
      return Fail(added.error);
    }
    assert |todo - {l}| < |todo|;
    r := Ok(todo - {l});
  }

  /** The entry `sorted(..., key=position)` puts first. */
  method LowestPosition(bits: map<string, int>) returns (l: string)
    requires bits != map[]
    ensures l in bits && forall m :: m in bits ==> bits[l] <= bits[m]
  {
    l :| l in bits;
    var todo := bits.Keys - {l};
    while todo != {}
      invariant todo <= bits.Keys && l in bits && l !in todo
      invariant forall m :: m in bits && m !in todo ==> bits[l] <= bits[m]
      decreases todo
    {
      var m :| m in todo;
      if bits[m] < bits[l] {
        l := m;
      }
      todo := todo - {m};
    }
  }

  /** `v` is loaded, `todo` still to load. */
  ghost predicate Loading(bits: map<string, int>, v: seq<string>, todo: map<string, int>)
  {
    && NoDuplicates(v)
    && Elements(v) !! todo.Keys && Elements(v) + todo.Keys == bits.Keys
    && (forall k :: 0 <= k < |v| ==> v[k] in bits && bits[v[k]] == k)
    && (forall l :: l in todo ==> bits[l] == todo[l])
  }

  lemma LoadedSize(bits: map<string, int>, v: seq<string>, todo: map<string, int>)
    requires Loading(bits, v, todo)
    ensures |bits| == |v| + |todo|
  {
    SizeOfElements(v);
    assert |bits.Keys| == |Elements(v)| + |todo.Keys|;
  }

  lemma LoadedPrefix(bits: map<string, int>, v: seq<string>, todo: map<string, int>, w: seq<string>)
    requires Loading(bits, v, todo) && IsVocabularyOf(w, bits)
    ensures v <= w && |w| == |v| + |todo|
  {
    LoadedSize(bits, v, todo);
    SizeOfElements(w);
    assert |bits| == |bits.Keys|;
    forall k | 0 <= k < |v| ensures w[k] == v[k] {
      assert v[k] in Elements(w);
      var j :| 0 <= j < |w| && w[j] == v[k];
    }
  }

  /** In a contiguous file the next position is there, and none below it. */
  lemma NextPosition(bits: map<string, int>, v: seq<string>, todo: map<string, int>, w: seq<string>)
    requires Loading(bits, v, todo) && IsVocabularyOf(w, bits) && todo != map[]
    ensures exists m :: m in todo && todo[m] == |v|
    ensures forall m :: m in todo ==> todo[m] >= |v|
  {
    LoadedPrefix(bits, v, todo, w);
    var next := w[|v|];
    forall k | 0 <= k < |v| ensures v[k] != next {
      assert v[k] == w[k];
    }
    assert next in Elements(w) && next !in Elements(v);
    assert next in todo && todo[next] == |v|;
    forall m | m in todo ensures todo[m] >= |v| {
      assert m in Elements(w);
      var j :| 0 <= j < |w| && w[j] == m;
      assert m !in Elements(v);
    }
  }

  lemma LoadingAdvance(bits: map<string, int>, v: seq<string>, todo: map<string, int>, l: string)
    requires Loading(bits, v, todo) && l in todo && todo[l] == |v|
    ensures Loading(bits, v + [l], todo - {l})
  {
    assert l !in Elements(v);
    ElementsConcat(v, [l]);
    assert (todo - {l}).Keys == todo.Keys - {l};
  }

  /** The lowest remaining entry either continues the numbering or shows that
      the file is no dictionary. */
  lemma LoadingStep(bits: map<string, int>, v: seq<string>, todo: map<string, int>, l: string)
    requires Loading(bits, v, todo) && l in todo && forall m :: m in todo ==> todo[l] <= todo[m]
    ensures l !in v && |v| < |bits|
    ensures todo[l] == |v| ==> Loading(bits, v + [l], todo - {l})
    ensures todo[l] != |v| ==> !Contiguous(bits)
  {
    LoadedSize(bits, v, todo);
    assert l !in Elements(v);
    if todo[l] == |v| {
      LoadingAdvance(bits, v, todo, l);
    } else {
      forall w | IsVocabularyOf(w, bits) ensures false {
        NextPosition(bits, v, todo, w);
      }
    }
  }

  lemma LoadingEnds(bits: map<string, int>, v: seq<string>, toBit: map<string, int>, todo: map<string, int>)
    requires Loading(bits, v, todo) && todo == map[] && IsVocabularyOf(v, toBit)
    ensures IsVocabularyOf(v, bits) && |bits| == |v| && toBit == bits
  {
    LoadedSize(bits, v, todo);
    forall l | l in bits ensures toBit[l] == bits[l] {
      assert l in Elements(v);
      var k :| 0 <= k < |v| && v[k] == l;
    }
  }

  /** Loading what was saved gives the same dictionary. */
  method SaveAndLoad(d: Dictionary) returns (e: Dictionary)
    requires d.Valid()
    ensures fresh(e) && e.Valid() && e.name == d.name && e.version == d.version && e.MaxBits() == d.MaxBits()
    ensures e.vocabulary == d.vocabulary && e.toBit == d.toBit && e.toLabel == d.toLabel
  {
    var s := d.Save();
    assert IsVocabularyOf(d.vocabulary, s.bits);
    var r := Load(s);
    e := r.value;
    VocabularyUnique(d.vocabulary, e.vocabulary, s.bits);
    TablesSame(d.vocabulary, d.toBit, d.toLabel, e.toLabel);
  }

  lemma TablesSame(v: seq<string>, toBit: map<string, int>, a: map<int, string>, b: map<int, string>)
    requires Tables(v, toBit, a) && Tables(v, toBit, b)
    ensures a == b
  {
    forall k ensures (k in a <==> k in b) && (k in a ==> a[k] == b[k]) {
      assert if 0 <= k < |v| then k in a && a[k] == v[k] else k !in a;
    }
  }
}
