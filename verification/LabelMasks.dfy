/**
 Label sets as chunked bit masks over a vocabulary, and the subset-test
 filters compiled from them (prototypes/lpg_bitmask/dictionary.py).
 */
module LabelMasks {
  import opened Names
  import opened Characters
  import opened Bits
  import Decimals

  const BITS_PER_CHUNK: nat := 32
  const DEFAULT_MAX_CHUNKS: nat := 8
  const ENUMERATION_BUDGET: nat := 4096

  datatype Error = VocabularyFull | UnknownLabel(name: string) | TooWide | NotEnumerable | WidthMismatch | Corrupt
  datatype Result<+T> = Ok(value: T) | Fail(error: Error)

  // ----- a vocabulary: labels in bit order

  /** `max(1, -(-n // 32))` */
  function ChunkCount(n: nat): (c: nat)
    ensures c >= 1 && n <= BITS_PER_CHUNK * c
    ensures c > 1 ==> BITS_PER_CHUNK * (c - 1) < n
  {
    if n == 0 then 1 else (n + BITS_PER_CHUNK - 1) / BITS_PER_CHUNK
  }

  /** Position `p` holds a label of the set. */
  ghost predicate Marked(v: seq<string>, labels: set<string>, p: nat)
  {
    p < |v| && v[p] in labels
  }

  /** `chunks` has exactly the bits of `labels` set, 32 positions to a chunk. */
  ghost predicate Encodes(v: seq<string>, labels: set<string>, chunks: seq<nat>)
  {
    && |chunks| == ChunkCount(|v|)
    && forall i: nat, b: nat :: i < |chunks| ==>
         (Bit(chunks[i], b) <==> b < BITS_PER_CHUNK && Marked(v, labels, BITS_PER_CHUNK * i + b))
  }

  /** A set has one encoding, and its chunks fit in 32 bits. */
  lemma EncodingUnique(v: seq<string>, labels: set<string>, c: seq<nat>, d: seq<nat>)
    requires Encodes(v, labels, c) && Encodes(v, labels, d)
    ensures c == d
    ensures forall i :: 0 <= i < |c| ==> c[i] < Pow2(BITS_PER_CHUNK)
  {
    forall i | 0 <= i < |c| ensures c[i] == d[i] && c[i] < Pow2(BITS_PER_CHUNK) {
      SameBits(c[i], d[i]);
      if c[i] >= Pow2(BITS_PER_CHUNK) {
        HighBit(c[i], BITS_PER_CHUNK);
      }
    }
  }

  lemma EncodesNothing(v: seq<string>, chunks: seq<nat>)
    requires |chunks| == ChunkCount(|v|) && forall i :: 0 <= i < |chunks| ==> chunks[i] == 0
    ensures Encodes(v, {}, chunks)
  {
    forall b: nat ensures !Bit(0, b) { ZeroHasNoBits(b); }
  }

  lemma PositionSplit(p: nat, i: nat, b: nat)
    ensures BITS_PER_CHUNK * i + b == p && b < BITS_PER_CHUNK <==> i == p / BITS_PER_CHUNK && b == p % BITS_PER_CHUNK
  {
  }

  lemma EncodesOneMore(v: seq<string>, labels: set<string>, chunks: seq<nat>, p: nat)
    requires NoDuplicates(v) && Encodes(v, labels, chunks) && p < |v|
    ensures p / BITS_PER_CHUNK < |chunks|
    ensures Encodes(v, labels + {v[p]},
      chunks[p / BITS_PER_CHUNK := BitOr(chunks[p / BITS_PER_CHUNK], Pow2(p % BITS_PER_CHUNK))])
  {
    var ci, bi := p / BITS_PER_CHUNK, p % BITS_PER_CHUNK;
    var more := chunks[ci := BitOr(chunks[ci], Pow2(bi))];
    forall i: nat, b: nat | i < |more|
      ensures Bit(more[i], b) <==> b < BITS_PER_CHUNK && Marked(v, labels + {v[p]}, BITS_PER_CHUNK * i + b)
    {
      BitOfOr(chunks[ci], Pow2(bi), b);
      BitOfPow2(bi, b);
      PositionSplit(p, i, b);
      assert Marked(v, labels + {v[p]}, BITS_PER_CHUNK * i + b) <==>
        Marked(v, labels, BITS_PER_CHUNK * i + b) || BITS_PER_CHUNK * i + b == p;
    }
  }

  // ----- decoding

  /** The labels at the set bits from position `p` on, in bit order. */
  function DecodeFrom(v: seq<string>, chunks: seq<nat>, p: nat): seq<string>
    decreases BITS_PER_CHUNK * |chunks| - p
  {
    if p >= BITS_PER_CHUNK * |chunks| then []
    else
      var rest := DecodeFrom(v, chunks, p + 1);
      if IsSet(chunks, p) && p < |v| then [v[p]] + rest else rest
  }

  predicate IsSet(chunks: seq<nat>, p: nat)
    requires p < BITS_PER_CHUNK * |chunks|
  {
    Bit(chunks[p / BITS_PER_CHUNK], p % BITS_PER_CHUNK)
  }

  function Decode(v: seq<string>, chunks: seq<nat>): seq<string>
  {
    DecodeFrom(v, chunks, 0)
  }

  /** Position `q` marks the label. */
  predicate Marks(v: seq<string>, chunks: seq<nat>, q: nat, l: string)
  {
    q < BITS_PER_CHUNK * |chunks| && q < |v| && v[q] == l && IsSet(chunks, q)
  }

  /** A label is decoded exactly when some position from `p` on marks it. */
  lemma {:induction false} DecodeMembers(v: seq<string>, chunks: seq<nat>, p: nat, l: string)
    ensures l in DecodeFrom(v, chunks, p) <==> exists q: nat :: p <= q && Marks(v, chunks, q, l)
    decreases BITS_PER_CHUNK * |chunks| - p
  {
    hide Marks, DecodeFrom;
    if p < BITS_PER_CHUNK * |chunks| {
      DecodeMembers(v, chunks, p + 1, l);
      DecodeAt(v, chunks, p, l);
    } else {
      DecodeEnds(v, chunks, p, l);
    }
  }

  lemma DecodeEnds(v: seq<string>, chunks: seq<nat>, p: nat, l: string)
    requires p >= BITS_PER_CHUNK * |chunks|
    ensures DecodeFrom(v, chunks, p) == [] && forall q: nat :: p <= q ==> !Marks(v, chunks, q, l)
  {
  }

  lemma DecodeAt(v: seq<string>, chunks: seq<nat>, p: nat, l: string)
    requires p < BITS_PER_CHUNK * |chunks|
    ensures l in DecodeFrom(v, chunks, p) <==> Marks(v, chunks, p, l) || l in DecodeFrom(v, chunks, p + 1)
  {
    hide IsSet;
    var rest := DecodeFrom(v, chunks, p + 1);
    if IsSet(chunks, p) && p < |v| {
      assert l in [v[p]] + rest <==> l == v[p] || l in rest;
    }
  }

  /** Decoding gives back the encoded set, also once the vocabulary has grown. */
  lemma DecodeEncoded(v: seq<string>, grown: seq<string>, labels: set<string>, chunks: seq<nat>)
    requires NoDuplicates(grown) && v <= grown && labels <= Elements(v)
    requires Encodes(v, labels, chunks)
    ensures Elements(Decode(grown, chunks)) == labels
  {
    hide Bit, DecodeFrom;
    forall l ensures l in Decode(grown, chunks) <==> l in labels {
      DecodeMembers(grown, chunks, 0, l);
      if l in labels {
        var q :| 0 <= q < |v| && v[q] == l;
        assert q == BITS_PER_CHUNK * (q / BITS_PER_CHUNK) + q % BITS_PER_CHUNK;
        assert Marked(v, labels, q) && Marks(grown, chunks, q, l);
      }
      if l in Decode(grown, chunks) {
        var q: nat :| Marks(grown, chunks, q, l);
        assert q == BITS_PER_CHUNK * (q / BITS_PER_CHUNK) + q % BITS_PER_CHUNK;
        assert Marked(v, labels, q);
      }
    }
  }

  // ----- filters

  /** `BIT_AND(var.field, @key) == @key` */
  datatype Test = Test(field: string, key: string)

  datatype Filter = Filter(tests: seq<Test>, binds: map<string, nat>)

  function Numbered(prefix: string, i: nat): string
  {
    prefix + Decimals.NatText(i)
  }

  lemma NumberedInjective(prefix: string, i: nat, j: nat)
    requires Numbered(prefix, i) == Numbered(prefix, j)
    ensures i == j
  {
    assert Numbered(prefix, i)[|prefix|..] == Decimals.NatText(i) && Numbered(prefix, j)[|prefix|..] == Decimals.NatText(j);
    Decimals.NatTextInjective(i, j);
  }

  /** The filter for the first `n` chunks: one test and one bound mask for each
      that is not zero. */
  function FilterOf(want: seq<nat>, prefix: string, bind: string, n: nat): Filter
    requires n <= |want|
  {
    if n == 0 then Filter([], map[])
    else
      var f := FilterOf(want, prefix, bind, n - 1);
      if want[n - 1] == 0 then f
      else Filter(f.tests + [Test(Numbered(prefix, n - 1), Numbered(bind, n - 1))],
                  f.binds[Numbered(bind, n - 1) := want[n - 1]])
  }

  type Row = map<string, nat>

  /** The server's BIT_AND: null on a missing field and past 32 bits. */
  function ServerBitAnd(row: Row, field: string, m: nat): Option<nat>
  {
    if field in row && row[field] < Pow2(BITS_PER_CHUNK) && m < Pow2(BITS_PER_CHUNK)
    then Some(BitAnd(row[field], m)) else None
  }

  /** The server's evaluation of the whole filter on a row. */
  ghost predicate Passes(f: Filter, row: Row)
  {
    forall k :: 0 <= k < |f.tests| ==> TestHolds(f, row, f.tests[k])
  }

  ghost predicate TestHolds(f: Filter, row: Row, test: Test)
  {
    test.key in f.binds && ServerBitAnd(row, test.field, f.binds[test.key]) == Some(f.binds[test.key])
  }

  /** The row holds `chunks` in its numbered fields and no further chunk. */
  ghost predicate Stores(row: Row, prefix: string, chunks: seq<nat>)
  {
    forall i: nat :: if i < |chunks| then Numbered(prefix, i) in row && row[Numbered(prefix, i)] == chunks[i]
                     else Numbered(prefix, i) !in row
  }

  /** What passing the first `n` tests means, chunk by chunk. */
  ghost predicate ChunksPass(want: seq<nat>, row: Row, prefix: string, n: nat)
    requires n <= |want|
  {
    forall i :: 0 <= i < n ==> ChunkPasses(want[i], row, Numbered(prefix, i))
  }

  /** A chunk that asks for nothing is not tested. */
  ghost predicate ChunkPasses(want: nat, row: Row, field: string)
  {
    want != 0 ==> ServerBitAnd(row, field, want) == Some(want)
  }

  lemma ThirtyTwoBits()
    ensures Pow2(BITS_PER_CHUNK) == 0x1_0000_0000
  {
    assert Pow2(8) == 256;
    assert Pow2(16) == 0x1_0000;
    assert Pow2(24) == 0x100_0000;
    assert Pow2(32) == 0x1_0000_0000;
  }

  /** A number of more than 32 bits, in a row or asked for, never passes: masks have to be cut into chunks. */
  lemma TooWideNeverPasses(want: nat, row: Row, field: string)
    requires want >= 0x1_0000_0000 || (field in row && row[field] >= 0x1_0000_0000)
    ensures want != 0 ==> !ChunkPasses(want, row, field)
  {
    ThirtyTwoBits();
    hide Pow2;
  }

  ghost predicate KeysBelow(f: Filter, bind: string, n: nat)
  {
    && (forall i: nat :: i >= n ==> Numbered(bind, i) !in f.binds)
    && (forall k :: 0 <= k < |f.tests| ==> f.tests[k].key in f.binds)
  }

  lemma {:induction false} FilterKeys(want: seq<nat>, prefix: string, bind: string, n: nat)
    requires n <= |want|
    ensures KeysBelow(FilterOf(want, prefix, bind, n), bind, n)
  {
    if n > 0 {
      FilterKeys(want, prefix, bind, n - 1);
      var f := FilterOf(want, prefix, bind, n);
      forall i: nat | i >= n ensures Numbered(bind, i) !in f.binds {
        if Numbered(bind, i) == Numbered(bind, n - 1) { NumberedInjective(bind, i, n - 1); }
      }
    }
  }

  lemma {:induction false} PassesByChunk(want: seq<nat>, prefix: string, bind: string, row: Row, n: nat)
    requires n <= |want|
    ensures Passes(FilterOf(want, prefix, bind, n), row) <==> ChunksPass(want, row, prefix, n)
  {
    hide ServerBitAnd, TestHolds, Numbered;
    if n > 0 {
      hide Passes;
      PassesByChunk(want, prefix, bind, row, n - 1);
      ChunksPassMore(want, row, prefix, n);
      FilterKeys(want, prefix, bind, n - 1);
      if want[n - 1] != 0 {
        PassesOneMore(FilterOf(want, prefix, bind, n - 1), row, Numbered(prefix, n - 1), Numbered(bind, n - 1), want[n - 1]);
      }
    }
  }

  lemma ChunksPassMore(want: seq<nat>, row: Row, prefix: string, n: nat)
    requires 0 < n <= |want|
    ensures ChunksPass(want, row, prefix, n) <==>
      ChunksPass(want, row, prefix, n - 1) && ChunkPasses(want[n - 1], row, Numbered(prefix, n - 1))
  {
    hide ChunkPasses, Numbered;
  }

  lemma PassesOneMore(f: Filter, row: Row, field: string, key: string, m: nat)
    requires key !in f.binds && forall k :: 0 <= k < |f.tests| ==> f.tests[k].key in f.binds
    ensures Passes(Filter(f.tests + [Test(field, key)], f.binds[key := m]), row) <==>
            Passes(f, row) && ServerBitAnd(row, field, m) == Some(m)
  {
    var g := Filter(f.tests + [Test(field, key)], f.binds[key := m]);
    forall k | 0 <= k < |f.tests| ensures TestHolds(g, row, g.tests[k]) <==> TestHolds(f, row, f.tests[k]) {
      assert g.tests[k] == f.tests[k];
    }
    assert g.tests[|f.tests|] == Test(field, key);
    if Passes(g, row) {
      assert TestHolds(g, row, g.tests[|f.tests|]);
      forall k | 0 <= k < |f.tests| ensures TestHolds(f, row, f.tests[k]) {
        assert TestHolds(g, row, g.tests[k]);
      }
    }
  }

  /** All labels a chunk asks for are among those stored. */
  ghost predicate ChunkCovered(v: seq<string>, stored: set<string>, want: nat, i: nat)
  {
    forall b: nat :: Bit(want, b) ==> Marked(v, stored, BITS_PER_CHUNK * i + b)
  }

  /** One chunk of the filter holds on a row exactly when the wanted labels of
      that chunk are all among the row's. */
  lemma ChunkExact(v: seq<string>, stored: set<string>, chunks: seq<nat>, want: nat, row: Row, prefix: string, i: nat)
    requires Encodes(v, stored, chunks) && Stores(row, prefix, chunks)
    requires want < Pow2(BITS_PER_CHUNK)
    ensures ChunkPasses(want, row, Numbered(prefix, i)) <==> ChunkCovered(v, stored, want, i)
  {
    if want == 0 {
      forall b: nat ensures !Bit(0, b) { ZeroHasNoBits(b); }
    } else if i < |chunks| {
      PresentChunk(v, stored, chunks, want, i);
      EncodingUnique(v, stored, chunks, chunks);
      assert Numbered(prefix, i) in row && row[Numbered(prefix, i)] == chunks[i];
      AndIsSubset(chunks[i], want);
    } else {
      assert Numbered(prefix, i) !in row;
      NonZeroHasBit(want);
      var b: nat :| Bit(want, b);
      assert !Marked(v, stored, BITS_PER_CHUNK * i + b);
    }
  }

  lemma PresentChunk(v: seq<string>, stored: set<string>, chunks: seq<nat>, want: nat, i: nat)
    requires Encodes(v, stored, chunks) && i < |chunks| && want < Pow2(BITS_PER_CHUNK)
    ensures Includes(chunks[i], want) <==> ChunkCovered(v, stored, want, i)
  {
    forall b: nat | Bit(want, b) ensures Bit(chunks[i], b) <==> Marked(v, stored, BITS_PER_CHUNK * i + b) {
      BitBelow(want, BITS_PER_CHUNK, b);
    }
  }

  /** The compiled filter is a subset test, exact also on rows written when the
      vocabulary was any earlier prefix of today's. */
  lemma FilterExact(v: seq<string>, grown: seq<string>, wanted: set<string>, want: seq<nat>,
                    stored: set<string>, chunks: seq<nat>, row: Row, prefix: string, bind: string)
    requires NoDuplicates(grown) && v <= grown && stored <= Elements(v) && wanted <= Elements(grown)
    requires Encodes(grown, wanted, want) && Encodes(v, stored, chunks) && Stores(row, prefix, chunks)
    ensures Passes(FilterOf(want, prefix, bind, |want|), row) <==> wanted <= stored
  {
    PassesByChunk(want, prefix, bind, row, |want|);
    EncodingUnique(grown, wanted, want, want);
    forall i: nat | i < |want|
      ensures ChunkPasses(want[i], row, Numbered(prefix, i)) <==> ChunkCovered(v, stored, want[i], i)
    {
      ChunkExact(v, stored, chunks, want[i], row, prefix, i);
    }
    CoveredIsSubset(v, grown, wanted, want, stored);
  }

  lemma CoveredIsSubset(v: seq<string>, grown: seq<string>, wanted: set<string>, want: seq<nat>, stored: set<string>)
    requires NoDuplicates(grown) && v <= grown && stored <= Elements(v) && wanted <= Elements(grown)
    requires Encodes(grown, wanted, want)
    ensures (forall i: nat :: i < |want| ==> ChunkCovered(v, stored, want[i], i)) <==> wanted <= stored
  {
    if wanted <= stored {
      forall i: nat, b: nat | i < |want| && Bit(want[i], b) ensures Marked(v, stored, BITS_PER_CHUNK * i + b) {
        MarkedStored(v, grown, wanted, stored, BITS_PER_CHUNK * i + b);
      }
    } else {
      var l :| l in wanted && l !in stored;
      var q :| 0 <= q < |grown| && grown[q] == l;
      var i, b := q / BITS_PER_CHUNK, q % BITS_PER_CHUNK;
      assert Marked(grown, wanted, BITS_PER_CHUNK * i + b) && Bit(want[i], b);
      assert !Marked(v, stored, BITS_PER_CHUNK * i + b);
      assert !ChunkCovered(v, stored, want[i], i);
    }
  }

  lemma MarkedStored(v: seq<string>, grown: seq<string>, wanted: set<string>, stored: set<string>, q: nat)
    requires NoDuplicates(grown) && v <= grown && stored <= Elements(v) && wanted <= stored
    requires Marked(grown, wanted, q)
    ensures Marked(v, stored, q)
  {
    var p :| 0 <= p < |v| && v[p] == grown[q];
    assert grown[p] == grown[q];
  }
}
