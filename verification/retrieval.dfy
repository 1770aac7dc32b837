/**
  Top-k retrieval (`PromptCoachRAG.retrieve_relevant_chunks`): every chunk of
  the store is scored against the query, the store is sorted by score, highest
  first, with Python's stable `sorted(..., reverse=True)`, and the first `top_k`
  chunks are returned.

  The sort is specified by the order it produces. Each chunk is tagged with its
  position in the store; `RanksBefore` puts the higher score first and, among
  equal scores, the earlier position first. On tagged chunks that is a strict
  total order, so there is exactly one arrangement of the store that follows it
  (`RankedUnique`), and it is the one a stable descending sort produces.
  `Ranking` computes it by insertion.
 */
module Retrieval {

  /** An embedding vector; its contents only matter to the scoring function. */
  type Embedding = seq<real>

  /** A chunk of the guide as stored: its text, the file it came from, its embedding and its last score. */
  datatype Chunk = Chunk(content: string, filename: string, embedding: Embedding, similarity: real)

  /** A chunk together with its position in the store. */
  datatype Entry = Entry(chunk: Chunk, pos: nat)

  // ---------------------------------------------------------------------------
  // Scoring

  /** The store after the scoring loop: each chunk's `similarity` is its score against the query; nothing else changes. */
  function Scored(cs: seq<Chunk>, query: Embedding, sim: (Embedding, Embedding) -> real): (r: seq<Chunk>)
    ensures |r| == |cs|
    ensures forall i :: 0 <= i < |cs| ==>
      && r[i].similarity == sim(query, cs[i].embedding)
      && r[i].content == cs[i].content
      && r[i].filename == cs[i].filename
      && r[i].embedding == cs[i].embedding
  {
    if cs == [] then []
    else Scored(cs[..|cs| - 1], query, sim) + [cs[|cs| - 1].(similarity := sim(query, cs[|cs| - 1].embedding))]
  }

  // ---------------------------------------------------------------------------
  // The order of the stable descending sort

  /** `x` comes before `y`: a higher score, or an equal score and an earlier store position. */
  predicate RanksBefore(x: Entry, y: Entry)
  {
    x.chunk.similarity > y.chunk.similarity || (x.chunk.similarity == y.chunk.similarity && x.pos < y.pos)
  }

  /** Every entry comes before every later one. */
  predicate Ranked(s: seq<Entry>)
  {
    forall i, j :: 0 <= i < j < |s| ==> RanksBefore(s[i], s[j])
  }

  /** No two entries share a store position. */
  predicate DistinctPositions(s: seq<Entry>)
  {
    forall i, j :: 0 <= i < j < |s| ==> s[i].pos != s[j].pos
  }

  /** The store, each chunk tagged with its position. */
  function Tag(cs: seq<Chunk>): (r: seq<Entry>)
    ensures |r| == |cs|
    ensures forall i :: 0 <= i < |cs| ==> r[i] == Entry(cs[i], i)
  {
    if cs == [] then [] else Tag(cs[..|cs| - 1]) + [Entry(cs[|cs| - 1], |cs| - 1)]
  }

  /** The chunks of a sequence of entries, in order. */
  function Chunks(s: seq<Entry>): (r: seq<Chunk>)
    ensures |r| == |s|
    ensures forall i :: 0 <= i < |s| ==> r[i] == s[i].chunk
  {
    if s == [] then [] else [s[0].chunk] + Chunks(s[1..])
  }

  /** Inserting `x` into a ranked sequence in front of the first entry it comes before. */
  function Insert(x: Entry, s: seq<Entry>): (r: seq<Entry>)
    ensures |r| == |s| + 1
    ensures multiset(r) == multiset(s) + multiset{x}
  {
    if s == [] then [x]
    else if RanksBefore(x, s[0]) then [x] + s
    else
      assert s == [s[0]] + s[1..];
      [s[0]] + Insert(x, s[1..])
  }

  /** Insertion sort under `RanksBefore`. */
  function Sort(xs: seq<Entry>): (r: seq<Entry>)
    ensures |r| == |xs|
    ensures multiset(r) == multiset(xs)
  {
    if xs == [] then []
    else
      assert xs == [xs[0]] + xs[1..];
      Insert(xs[0], Sort(xs[1..]))
  }

  /** The store in the order of `sorted(chunks, key=similarity, reverse=True)`, each chunk tagged with its store position. */
  function Ranking(cs: seq<Chunk>): seq<Entry>
  {
    Sort(Tag(cs))
  }

  /** `sorted(chunks, key=similarity, reverse=True)`: a permutation of the store whose scores never increase. */
  function SortedChunks(cs: seq<Chunk>): (r: seq<Chunk>)
    ensures |r| == |cs|
    ensures multiset(r) == multiset(cs)
    ensures forall i, j :: 0 <= i < j < |r| ==> r[i].similarity >= r[j].similarity
  {
    SortChunks(Tag(cs));
    SortRanked(Tag(cs));
    assert Chunks(Tag(cs)) == cs;
    Chunks(Ranking(cs))
  }

  /** How many elements Python's `xs[:k]` keeps of a sequence of length `n` (a negative `k` counts from the end). */
  function SliceEnd(k: int, n: nat): (m: nat)
    ensures m <= n
    ensures k >= 0 ==> m == if k < n then k else n
    ensures k < 0 ==> m == if n + k > 0 then n + k else 0
  {
    if k >= n then n
    else if k >= 0 then k
    else if n + k > 0 then n + k
    else 0
  }

  /** `sorted_chunks[:top_k]`: at most the whole store, no chunk more often than in the store, best first. */
  function TopK(cs: seq<Chunk>, k: int): (r: seq<Chunk>)
    ensures |r| <= |cs|
    ensures multiset(r) <= multiset(cs)
    ensures forall i, j :: 0 <= i < j < |r| ==> r[i].similarity >= r[j].similarity
  {
    var sorted, m := SortedChunks(cs), SliceEnd(k, |cs|);
    assert sorted == sorted[..m] + sorted[m..];
    sorted[..m]
  }

  // ---------------------------------------------------------------------------
  // Properties of the sort

  /** Two entries at different positions are ordered one way or the other. */
  lemma RanksBeforeTotal(x: Entry, y: Entry)
    requires x.pos != y.pos
    ensures RanksBefore(x, y) || RanksBefore(y, x)
  {
  }

  /** Inserting an entry whose position is new keeps the sequence ranked. */
  lemma {:induction false} InsertRanked(x: Entry, s: seq<Entry>)
    requires Ranked(s)
    requires forall i :: 0 <= i < |s| ==> s[i].pos != x.pos
    ensures Ranked(Insert(x, s))
    decreases |s|
  {
    if s != [] && !RanksBefore(x, s[0]) {
      var rest := Insert(x, s[1..]);
      InsertRanked(x, s[1..]);
      RanksBeforeTotal(x, s[0]);
      forall j | 0 <= j < |rest| ensures RanksBefore(s[0], rest[j]) {
        assert rest[j] in multiset(rest);
        if rest[j] != x {
          assert rest[j] in multiset(s[1..]);
          var k :| 0 <= k < |s[1..]| && s[1..][k] == rest[j];
          assert RanksBefore(s[0], s[k + 1]);
        }
      }
      assert Insert(x, s) == [s[0]] + rest;
    }
  }

  /** Sorting entries with distinct positions ranks them. */
  lemma {:induction false} SortRanked(xs: seq<Entry>)
    requires DistinctPositions(xs)
    ensures Ranked(Sort(xs))
  {
    if xs != [] {
      var rest := Sort(xs[1..]);
      SortRanked(xs[1..]);
      forall i | 0 <= i < |rest| ensures rest[i].pos != xs[0].pos {
        assert rest[i] in multiset(xs[1..]);
        var k :| 0 <= k < |xs[1..]| && xs[1..][k] == rest[i];
        assert xs[k + 1] == rest[i];
      }
      InsertRanked(xs[0], rest);
    }
  }

  /** The chunks of an insertion are the chunks before it and the inserted one. */
  lemma {:induction false} InsertChunks(x: Entry, s: seq<Entry>)
    ensures multiset(Chunks(Insert(x, s))) == multiset(Chunks(s)) + multiset{x.chunk}
    decreases |s|
  {
    if s != [] && !RanksBefore(x, s[0]) {
      InsertChunks(x, s[1..]);
      assert Chunks(s) == [s[0].chunk] + Chunks(s[1..]);
    }
  }

  /** Sorting rearranges the chunks and loses none. */
  lemma {:induction false} SortChunks(xs: seq<Entry>)
    ensures multiset(Chunks(Sort(xs))) == multiset(Chunks(xs))
  {
    if xs != [] {
      SortChunks(xs[1..]);
      InsertChunks(xs[0], Sort(xs[1..]));
      assert Chunks(xs) == [xs[0].chunk] + Chunks(xs[1..]);
    }
  }

  /**
    The ranking is the stable descending order of the store: every store
    position appears exactly once, each entry carries the chunk at its
    position, scores never increase, and among equal scores the store order is
    kept.
   */
  lemma RankingStable(cs: seq<Chunk>)
    ensures var r := Ranking(cs);
      && |r| == |cs|
      && (forall i :: 0 <= i < |r| ==> r[i].pos < |cs| && r[i].chunk == cs[r[i].pos])
      && (forall p :: 0 <= p < |cs| ==> Entry(cs[p], p) in r)
      && (forall i, j :: 0 <= i < j < |r| ==> r[i].pos != r[j].pos)
      && (forall i, j :: 0 <= i < j < |r| ==> r[i].chunk.similarity >= r[j].chunk.similarity)
      && (forall i, j :: 0 <= i < j < |r| && r[i].chunk.similarity == r[j].chunk.similarity ==> r[i].pos < r[j].pos)
  {
    var t, r := Tag(cs), Ranking(cs);
    SortRanked(t);
    forall i | 0 <= i < |r| ensures r[i].pos < |cs| && r[i].chunk == cs[r[i].pos] {
      assert r[i] in multiset(t);
      var k :| 0 <= k < |t| && t[k] == r[i];
    }
    forall p | 0 <= p < |cs| ensures Entry(cs[p], p) in r {
      assert t[p] in multiset(r);
    }
  }

  /** The first element of a ranked sequence comes before every other element of it. */
  lemma RankedHeadFirst(s: seq<Entry>, e: Entry)
    requires Ranked(s) && s != [] && e in s && e != s[0]
    ensures RanksBefore(s[0], e)
  {
    var k :| 0 <= k < |s| && s[k] == e;
  }

  /** Two ranked arrangements of the same entries start with the same entry. */
  lemma RankedSameHead(s: seq<Entry>, t: seq<Entry>)
    requires Ranked(s) && Ranked(t) && multiset(s) == multiset(t) && s != []
    ensures t != [] && s[0] == t[0]
  {
    assert s[0] in multiset(t);
    assert t[0] in multiset(s);
    if s[0] != t[0] {
      RankedHeadFirst(s, t[0]);
      RankedHeadFirst(t, s[0]);
    }
  }

  /** Removing the first entry of two arrangements with the same first entry leaves the same entries. */
  lemma SameTails(s: seq<Entry>, t: seq<Entry>)
    requires s != [] && t != [] && s[0] == t[0] && multiset(s) == multiset(t)
    ensures multiset(s[1..]) == multiset(t[1..])
  {
    assert s == [s[0]] + s[1..] && t == [t[0]] + t[1..];
    assert multiset(s[1..]) == multiset(s) - multiset{s[0]};
    assert multiset(t[1..]) == multiset(t) - multiset{t[0]};
  }

  /**
    There is only one ranked arrangement of a collection of entries: any stable
    descending sort of the store yields `Ranking`.
   */
  lemma {:induction false} RankedUnique(s: seq<Entry>, t: seq<Entry>)
    requires Ranked(s) && Ranked(t) && multiset(s) == multiset(t)
    ensures s == t
    decreases |s|
  {
    if s != [] {
      RankedSameHead(s, t);
      SameTails(s, t);
      RankedUnique(s[1..], t[1..]);
      assert s == [s[0]] + s[1..] && t == [t[0]] + t[1..];
    } else {
      assert |multiset(t)| == 0;
    }
  }

  /** A ranked permutation of the tagged store is the ranking: the sort's result is determined by the order alone. */
  lemma RankingIsTheStableSort(cs: seq<Chunk>, s: seq<Entry>)
    requires Ranked(s) && multiset(s) == multiset(Tag(cs))
    ensures s == Ranking(cs)
  {
    SortRanked(Tag(cs));
    RankedUnique(s, Ranking(cs));
  }

  // ---------------------------------------------------------------------------
  // Properties of the top-k selection

  /**
    `top_k` chunks (or the whole store when it is smaller) come back, as the
    head of the sorted store, and each of them scores at least as high as every
    chunk left out.
   */
  lemma TopKBest(cs: seq<Chunk>, k: nat)
    ensures var top, sorted := TopK(cs, k), SortedChunks(cs);
      && |top| == (if k < |cs| then k else |cs|)
      && top == sorted[..|top|]
      && forall i, j :: 0 <= i < |top| <= j < |sorted| ==> top[i].similarity >= sorted[j].similarity
  {
  }

  /** With `top_k` at least the size of the store, the result is the whole store, reordered: no chunk is dropped or repeated. */
  lemma TopKAll(cs: seq<Chunk>, k: nat)
    requires k >= |cs|
    ensures multiset(TopK(cs, k)) == multiset(cs)
  {
    assert SortedChunks(cs)[..|cs|] == SortedChunks(cs);
  }

  /** The retrieved chunks are, together with those left out, exactly the store: a prefix of a permutation of it. */
  lemma TopKPrefix(cs: seq<Chunk>, k: int)
    ensures var sorted := SortedChunks(cs);
      multiset(TopK(cs, k)) + multiset(sorted[SliceEnd(k, |cs|)..]) == multiset(cs)
  {
    var sorted := SortedChunks(cs);
    var m := SliceEnd(k, |cs|);
    assert sorted == sorted[..m] + sorted[m..];
  }
}
