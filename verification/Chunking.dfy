/** `chunk_text`: overlapping windows of tokens, with character offsets into the document. */
module Chunking {
  import opened Options
  import opened Text
  import opened Tokens

  datatype Chunk = Chunk(
    index: nat, charStart: nat, charEnd: nat, tokenStart: nat, tokenEnd: int, text: string, tokenCount: int)

  datatype Chunks = Chunked(chunks: seq<Chunk>) | OverlapNotSmaller

  /** Python's `xs[i:j]` for a start that is never negative. */
  function PySlice<T>(xs: seq<T>, i: nat, j: int): seq<T> {
    var hi := if j >= 0 then Min(j, |xs|) else Max(0, |xs| + j);
    if i < hi then xs[i..hi] else []
  }

  function Min(a: int, b: int): int {
    if b < a then b else a
  }

  function Max(a: int, b: int): int {
    if b > a then b else a
  }

  /** `slice_by_token_range`. */
  function SliceByTokenRange(ts: seq<Token>, start: nat, end: int): (nat, nat) {
    var selected := PySlice(ts, start, end);
    if selected == [] then (0, 0) else (selected[0].start, selected[|selected| - 1].end)
  }

  /** The chunk numbered `index` that starts at token `start`. */
  function ChunkAt(text: string, ts: seq<Token>, start: nat, index: nat, max: int): Chunk {
    var end := Min(start + max, |ts|);
    var (l, r) := SliceByTokenRange(ts, start, end);
    Chunk(index, l, r, start, end, PySlice(text, l, r), end - start)
  }

  function ChunksFrom(text: string, ts: seq<Token>, start: nat, index: nat, max: int, overlap: int): seq<Chunk>
    requires overlap < max
    decreases |ts| - start
  {
    if start >= |ts| then []
    else
      var end := Min(start + max, |ts|);
      var chunk := ChunkAt(text, ts, start, index, max);
      if end >= |ts| then [chunk] else [chunk] + ChunksFrom(text, ts, Max(0, end - overlap), index + 1, max, overlap)
  }

  function ChunksOf(word: WordClass, text: string, max: int, overlap: int): (r: Chunks)
    ensures r.OverlapNotSmaller? <==> Tokenize(word, text) != [] && overlap >= max
  {
    var ts := Tokenize(word, text);
    if ts == [] then Chunked([])
    else if overlap >= max then OverlapNotSmaller
    else Chunked(ChunksFrom(text, ts, 0, 0, max, overlap))
  }

  /** `chunk_text`. The windows end for every pair of integers it accepts, negative ones included. */
  method ChunkText(word: WordClass, text: string, max: int, overlap: int) returns (r: Chunks)
    ensures r == ChunksOf(word, text, max, overlap)
  {
    hide ChunkAt, Tokenize;
    var ts := FallbackTokenize(word, text);
    if ts == [] {
      return Chunked([]);
    }
    if overlap >= max {
      return OverlapNotSmaller;
    }
    var chunks: seq<Chunk> := [];
    var start, index := 0, 0;
    while start < |ts|
      invariant 0 <= start && 0 <= index
      invariant ChunksFrom(text, ts, 0, 0, max, overlap) == chunks + ChunksFrom(text, ts, start, index, max, overlap)
      decreases |ts| - start
    {
      var end := Min(start + max, |ts|);
      var chunk := ChunkAt(text, ts, start, index, max);
      if end >= |ts| {
        chunks := chunks + [chunk];
        break;
      }
      Assoc(chunks, [chunk], ChunksFrom(text, ts, Max(0, end - overlap), index + 1, max, overlap));
      chunks := chunks + [chunk];
      start, index := Max(0, end - overlap), index + 1;
    }
    r := Chunked(chunks);
  }

  // ---------------------------------------------------------------- the plan of a document

  /** The first token of chunk `k` when the windows are `stride` tokens apart. */
  function StartOf(k: nat, stride: nat): nat {
    if k == 0 then 0 else StartOf(k - 1, stride) + stride
  }

  lemma {:induction false} StartIsProduct(k: nat, stride: nat)
    ensures StartOf(k, stride) == k * stride
  {
    if k > 0 {
      StartIsProduct(k - 1, stride);
      assert k * stride == (k - 1) * stride + stride;
    }
  }

  /** Chunk `k` of a document whose windows are `max` tokens wide and `stride` apart. */
  ghost predicate Planned(c: Chunk, text: string, ts: seq<Token>, k: nat, max: nat, stride: nat) {
    var a, b := StartOf(k, stride), Min(StartOf(k, stride) + max, |ts|);
    && a < b
    && ts[a].start <= ts[b - 1].end <= |text|
    && c == Chunk(k, ts[a].start, ts[b - 1].end, a, b, text[ts[a].start..ts[b - 1].end], b - a)
  }

  /** The chunks from number `k` on: each as planned, only the last one reaching the end. */
  ghost predicate Plan(cs: seq<Chunk>, text: string, ts: seq<Token>, k: nat, max: nat, stride: nat) {
    && cs != []
    && (forall j :: 0 <= j < |cs| ==> Planned(cs[j], text, ts, k + j, max, stride))
    && (forall j :: 0 <= j < |cs| ==> (cs[j].tokenStart + max >= |ts| <==> j == |cs| - 1))
  }

  ghost predicate Placed(text: string, ts: seq<Token>) {
    && (forall k :: 0 <= k < |ts| ==> ts[k].start < ts[k].end <= |text|)
    && Ordered(ts)
  }

  lemma {:induction false} ChunkAtPlanned(text: string, ts: seq<Token>, k: nat, max: nat, stride: nat)
    requires Placed(text, ts) && 0 < max && StartOf(k, stride) < |ts|
    ensures Planned(ChunkAt(text, ts, StartOf(k, stride), k, max), text, ts, k, max, stride)
  {
    var a, b := StartOf(k, stride), Min(StartOf(k, stride) + max, |ts|);
    assert PySlice(ts, a, b) == ts[a..b];
    assert ts[a].start <= ts[b - 1].end;
  }

  lemma {:induction false} PlanFrom(text: string, ts: seq<Token>, k: nat, start: nat, max: nat, overlap: nat,
      stride: nat)
    requires Placed(text, ts) && overlap < max && stride == max - overlap && start == StartOf(k, stride) && start < |ts|
    ensures Plan(ChunksFrom(text, ts, start, k, max, overlap), text, ts, k, max, stride)
    decreases |ts| - start
  {
    hide Planned, Placed, ChunkAt;
    ChunkAtPlanned(text, ts, k, max, stride);
    if start + max < |ts| {
      PlanFrom(text, ts, k + 1, start + stride, max, overlap, stride);
      ConsPlan(ChunkAt(text, ts, start, k, max), ChunksFrom(text, ts, start + stride, k + 1, max, overlap), text, ts, k,
        max, stride);
    }
  }

  lemma {:induction false} ConsPlan(c: Chunk, rest: seq<Chunk>, text: string, ts: seq<Token>, k: nat, max: nat,
      stride: nat)
    requires Planned(c, text, ts, k, max, stride) && Plan(rest, text, ts, k + 1, max, stride)
               && c.tokenStart + max < |ts|
    ensures Plan([c] + rest, text, ts, k, max, stride)
  {
    var cs := [c] + rest;
    forall j | 0 <= j < |cs| ensures Planned(cs[j], text, ts, k + j, max, stride) {
      if j > 0 {
        assert Planned(rest[j - 1], text, ts, k + 1 + (j - 1), max, stride);
      }
    }
  }

  lemma {:induction false} TokenizedPlaced(word: WordClass, text: string)
    ensures Placed(text, Tokenize(word, text))
  {
    Tokenization(word, text);
    var ts := Tokenize(word, text);
    forall k | 0 <= k < |ts| ensures ts[k].start < ts[k].end <= |text| {
      assert Whole(word, text, ts[k]);
    }
  }

  /** The chunk's text is the stretch of the document its offsets name. */
  predicate Stretch(c: Chunk, text: string) {
    && c.charStart <= c.charEnd <= |text| && c.text == text[c.charStart..c.charEnd]
    && c.tokenCount == c.tokenEnd - c.tokenStart
  }

  lemma ChunkAtStretch(text: string, ts: seq<Token>, start: nat, index: nat, max: int)
    requires Placed(text, ts)
    ensures Stretch(ChunkAt(text, ts, start, index, max), text)
  {
    var selected := PySlice(ts, start, Min(start + max, |ts|));
    if selected != [] {
      var last := start + |selected| - 1;
      assert selected[0] == ts[start] && selected[|selected| - 1] == ts[last];
      assert ts[start].start <= ts[last].end;
    }
  }

  ghost predicate Stretches(cs: seq<Chunk>, text: string, index: nat) {
    forall k :: 0 <= k < |cs| ==> Stretch(cs[k], text) && cs[k].index == index + k
  }

  lemma {:induction false} StretchesFrom(
    text: string, ts: seq<Token>, start: nat, index: nat, max: int, overlap: int)
    requires overlap < max && Placed(text, ts)
    ensures Stretches(ChunksFrom(text, ts, start, index, max, overlap), text, index)
    decreases |ts| - start
  {
    hide Stretch, Placed, SliceByTokenRange, PySlice;
    if start < |ts| {
      var end := Min(start + max, |ts|);
      ChunkAtStretch(text, ts, start, index, max);
      if end < |ts| {
        StretchesFrom(text, ts, Max(0, end - overlap), index + 1, max, overlap);
      }
    }
  }

  /** Whatever the window sizes, every chunk is a stretch of the document, and the chunks are numbered in order. */
  lemma ChunksAreStretches(word: WordClass, text: string, max: int, overlap: int)
    requires ChunksOf(word, text, max, overlap).Chunked?
    ensures Stretches(ChunksOf(word, text, max, overlap).chunks, text, 0)
  {
    hide Stretches, Placed, Tokenize;
    TokenizedPlaced(word, text);
    if Tokenize(word, text) != [] {
      StretchesFrom(text, Tokenize(word, text), 0, 0, max, overlap);
    } else {
      NoStretches(text);
    }
  }

  lemma NoStretches(text: string)
    ensures Stretches([], text, 0)
  {
  }

  /** A text without tokens has no chunks; any other text has the planned ones. */
  lemma {:induction false} ChunksPlanned(word: WordClass, text: string, max: nat, overlap: nat)
    requires overlap < max
    ensures var ts := Tokenize(word, text);
            var r := ChunksOf(word, text, max, overlap);
            r.Chunked? && if ts == [] then r.chunks == [] else Plan(r.chunks, text, ts, 0, max, max - overlap)
  {
    var ts := Tokenize(word, text);
    TokenizedPlaced(word, text);
    if ts != [] {
      PlanFrom(text, ts, 0, 0, max, overlap, max - overlap);
    }
  }

  lemma {:induction false} ChunkIsPlanned(word: WordClass, text: string, max: nat, overlap: nat, k: nat)
    requires overlap < max && k < |ChunksOf(word, text, max, overlap).chunks|
    ensures var ts := Tokenize(word, text);
            var cs := ChunksOf(word, text, max, overlap).chunks;
            && Planned(cs[k], text, ts, k, max, max - overlap)
            && (cs[k].tokenStart + max >= |ts| <==> k == |cs| - 1)
  {
    ChunksPlanned(word, text, max, overlap);
    var cs := ChunksOf(word, text, max, overlap).chunks;
    assert Planned(cs[k], text, Tokenize(word, text), 0 + k, max, max - overlap);
  }

  /**
   * With `0 <= overlap < max`, chunk `k` starts at token `k * (max - overlap)` and is
   * `max` tokens long, or ends at the last token; its text is the document's between
   * its first and last token.
   */
  lemma {:induction false} ChunkPlan(word: WordClass, text: string, max: nat, overlap: nat, k: nat)
    requires overlap < max && k < |ChunksOf(word, text, max, overlap).chunks|
    ensures var ts := Tokenize(word, text);
            var c := ChunksOf(word, text, max, overlap).chunks[k];
            && c.index == k
            && c.tokenStart == k * (max - overlap)
            && c.tokenEnd == Min(c.tokenStart + max, |ts|)
            && c.tokenStart < c.tokenEnd && c.tokenCount == c.tokenEnd - c.tokenStart
            && c.charStart == ts[c.tokenStart].start && c.charEnd == ts[c.tokenEnd - 1].end
            && c.charStart <= c.charEnd <= |text| && c.text == text[c.charStart..c.charEnd]
  {
    ChunkIsPlanned(word, text, max, overlap, k);
    StartIsProduct(k, max - overlap);
  }

  lemma {:induction false} CeilingIs(m: nat, stride: nat, c: nat)
    requires stride > 0 && c > 0 && (c - 1) * stride < m <= c * stride
    ensures (m + stride - 1) / stride == c
  {
    assert c * stride == (c - 1) * stride + stride;
    QuotientUnique(m + stride - 1, stride, c, m + stride - 1 - c * stride);
  }

  lemma {:induction false} QuotientUnique(x: nat, b: nat, q: nat, r: nat)
    requires b > 0 && r < b && x == q * b + r
    ensures x / b == q
  {
    var d, m := x / b, x % b;
    if d < q {
      Multiple(d, q, b);
    } else if d > q {
      Multiple(q, d, b);
    }
  }

  lemma {:induction false} Multiple(d: nat, q: nat, b: nat)
    requires d < q
    ensures d * b + b <= q * b
    decreases q
  {
    assert q * b == (q - 1) * b + b;
    if d < q - 1 {
      Multiple(d, q - 1, b);
    }
  }

  /** The number of chunks of a document of `n` tokens. */
  lemma {:induction false} ChunkCount(word: WordClass, text: string, max: nat, overlap: nat)
    requires overlap < max
    ensures var n := |Tokenize(word, text)|;
            |ChunksOf(word, text, max, overlap).chunks|
            == if n == 0 then 0 else if n <= max then 1 else 1 + ((n - max) + (max - overlap) - 1) / (max - overlap)
  {
    var n := |Tokenize(word, text)|;
    var stride := max - overlap;
    ChunksPlanned(word, text, max, overlap);
    var cs := ChunksOf(word, text, max, overlap).chunks;
    if n > 0 {
      var last := |cs| - 1;
      ChunkIsPlanned(word, text, max, overlap, 0);
      if n > max {
        ChunkIsPlanned(word, text, max, overlap, last);
        ChunkIsPlanned(word, text, max, overlap, last - 1);
        StartIsProduct(last, stride);
        StartIsProduct(last - 1, stride);
        CeilingIs(n - max, stride, last);
      }
    }
  }

  /** Neighbouring chunks share exactly `overlap` tokens. */
  lemma {:induction false} NeighboursOverlap(word: WordClass, text: string, max: nat, overlap: nat, k: nat)
    requires overlap < max
    requires k + 1 < |ChunksOf(word, text, max, overlap).chunks|
    ensures var cs := ChunksOf(word, text, max, overlap).chunks;
            cs[k].tokenEnd - cs[k + 1].tokenStart == overlap
  {
    ChunkIsPlanned(word, text, max, overlap, k);
    ChunkIsPlanned(word, text, max, overlap, k + 1);
  }

  /** Every token lies in a chunk. */
  lemma {:induction false} ChunksCover(word: WordClass, text: string, max: nat, overlap: nat, t: nat)
    requires overlap < max && t < |Tokenize(word, text)|
    ensures exists k :: 0 <= k < |ChunksOf(word, text, max, overlap).chunks|
                     && var c := ChunksOf(word, text, max, overlap).chunks[k]; c.tokenStart <= t < c.tokenEnd
  {
    ChunksPlanned(word, text, max, overlap);
    var cs := ChunksOf(word, text, max, overlap).chunks;
    var k := |cs| - 1;
    ChunkIsPlanned(word, text, max, overlap, k);
    ChunkIsPlanned(word, text, max, overlap, 0);
    while cs[k].tokenStart > t
      invariant 0 <= k < |cs| && t < cs[k].tokenEnd
      decreases k
    {
      NeighboursOverlap(word, text, max, overlap, k - 1);
      k := k - 1;
    }
  }

  /**
   * A chunk's text, tokenized alone, gives the document's tokens `[tokenStart, tokenEnd)`
   * shifted in position and number.
   */
  lemma {:induction false} ChunkRetokenizes(word: WordClass, text: string, max: nat, overlap: nat, k: nat)
    requires overlap < max && k < |ChunksOf(word, text, max, overlap).chunks|
    ensures var ts := Tokenize(word, text);
            var c := ChunksOf(word, text, max, overlap).chunks[k];
            && 0 <= c.tokenStart < c.tokenEnd <= |ts|
            && ts[c.tokenStart..c.tokenEnd] == Shift(Tokenize(word, c.text), c.charStart, c.tokenStart)
  {
    hide ChunksOf, Tokenize;
    ChunkIsPlanned(word, text, max, overlap, k);
    var c := ChunksOf(word, text, max, overlap).chunks[k];
    RetokenizeSlice(word, text, c.tokenStart, c.tokenEnd);
  }

  /**
   * The token range found for a span inside a chunk, moved by the chunk's first token,
   * is the range of document tokens that overlap the span's document position.
   */
  lemma {:induction false} ChunkTokenRange(word: WordClass, text: string, max: nat, overlap: nat, k: nat, from: nat,
      to: nat)
    requires overlap < max && k < |ChunksOf(word, text, max, overlap).chunks|
    requires var c := ChunksOf(word, text, max, overlap).chunks[k]; from <= to <= |c.text|
    ensures var c := ChunksOf(word, text, max, overlap).chunks[k];
            ShiftRange(TokenRange(Tokenize(word, c.text), from, to), c.tokenStart)
            == TokenRange(Tokenize(word, text), c.charStart + from, c.charStart + to)
  {
    hide TokenRange, ShiftRange, ChunksOf, Tokenize;
    ChunkIsPlanned(word, text, max, overlap, k);
    var c := ChunksOf(word, text, max, overlap).chunks[k];
    SliceTokenRange(word, text, c.tokenStart, c.tokenEnd, from, to);
  }
}
