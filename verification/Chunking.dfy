/**
 * Overlapping chunks of a text's words (internal/memory/embed.go, Chunk).
 *
 * A chunk is the list of its words; splitting the text and joining a chunk by spaces are not modelled.
 */
module Chunking {
  const CHUNK_SIZE: nat := 512
  const CHUNK_OVERLAP: nat := 128

  datatype Word = Word(text: string)

  type Words = seq<Word>

  function End(words: Words, start: nat): nat {
    if start + CHUNK_SIZE > |words| then |words| else start + CHUNK_SIZE
  }

  /** The chunks from word `start` on. */
  function Pieces(words: Words, start: nat): seq<Words>
    requires start < |words|
    decreases |words| - start
  {
    var end := End(words, start);
    [words[start..end]] + if end == |words| then [] else Pieces(words, end - CHUNK_OVERLAP)
  }

  /** All chunks but the last have exactly 512 words; the last has between 1 and 512. */
  lemma {:induction false} PieceLengths(words: Words, start: nat, k: nat)
    requires start < |words| && k < |Pieces(words, start)|
    ensures 1 <= |Pieces(words, start)[k]| <= 512
    ensures k < |Pieces(words, start)| - 1 ==> |Pieces(words, start)[k]| == 512
    decreases |words| - start
  {
    if k > 0 { PieceLengths(words, End(words, start) - CHUNK_OVERLAP, k - 1); }
  }

  /** A later chunk repeats the last 128 words of the one before it and adds at least one word. */
  lemma {:induction false} PiecesOverlap(words: Words, start: nat, k: nat)
    requires start < |words| && 0 < k < |Pieces(words, start)|
    ensures var p, q := Pieces(words, start)[k - 1], Pieces(words, start)[k];
      && |p| == 512 && 128 < |q|
      && q[..128] == p[384..]
    decreases |words| - start
  {
    var next := End(words, start) - CHUNK_OVERLAP;
    if k > 1 {
      PiecesOverlap(words, next, k - 1);
    } else {
      var end := End(words, next);
      assert Pieces(words, start)[1] == Pieces(words, next)[0] == words[next..end];
    }
  }

  /** The chunks in order, each without what it repeats. */
  function Rebuilt(pieces: seq<Words>): Words
    requires Overlapping(pieces)
  {
    if pieces == [] then []
    else if |pieces| == 1 then pieces[0]
    else Rebuilt(pieces[..|pieces| - 1]) + pieces[|pieces| - 1][CHUNK_OVERLAP..]
  }

  /** Where chunk `k` starts: each start is 512 - 128 words after the one before. */
  function From(start: nat, k: nat): nat {
    start + 384 * k
  }

  lemma {:induction false} PieceAt(words: Words, start: nat, k: nat)
    requires start < |words| && k < |Pieces(words, start)|
    ensures From(start, k) < |words|
    ensures Pieces(words, start)[k] == words[From(start, k)..End(words, From(start, k))]
    ensures k == |Pieces(words, start)| - 1 <==> End(words, From(start, k)) == |words|
    decreases |words| - start
  {
    if k > 0 {
      PieceAt(words, End(words, start) - CHUNK_OVERLAP, k - 1);
    }
  }

  /** There is one chunk for the first 512 words and one more for each 384 words or part of them after that. */
  lemma PieceCount(words: Words)
    requires 0 < |words|
    ensures var n := |Pieces(words, 0)|;
      n >= 1 && |words| <= 512 + 384 * (n - 1) && (n > 1 ==> |words| > 512 + 384 * (n - 2))
  {
    var n := |Pieces(words, 0)|;
    PieceAt(words, 0, n - 1);
    if n > 1 { PieceAt(words, 0, n - 2); }
  }

  lemma Glue(words: Words, from: nat, end: nat)
    requires from + CHUNK_OVERLAP <= end <= |words|
    ensures words[..from + CHUNK_OVERLAP] + words[from..end][CHUNK_OVERLAP..] == words[..end]
  {
  }

  ghost predicate Overlapping(pieces: seq<Words>) {
    forall i :: 0 < i < |pieces| ==> |pieces[i]| >= CHUNK_OVERLAP
  }

  /** Chunk `k` of the text, by its position alone. */
  ghost predicate PieceIs(words: Words, piece: Words, k: nat) {
    From(0, k) < |words| && piece == words[From(0, k)..End(words, From(0, k))]
  }

  lemma {:induction false} RebuiltPrefix(words: Words, pieces: seq<Words>)
    requires pieces != [] && Overlapping(pieces)
    requires forall k: nat :: k < |pieces| ==> PieceIs(words, pieces[k], k)
    ensures Rebuilt(pieces) == words[..End(words, From(0, |pieces| - 1))]
    decreases |pieces|
  {
    var last := |pieces| - 1;
    assert PieceIs(words, pieces[last], last);
    if last > 0 {
      RebuiltPrefix(words, pieces[..last]);
      assert PieceIs(words, pieces[last - 1], last - 1);
      Glue(words, From(0, last), End(words, From(0, last)));
    }
  }

  lemma PiecesPlaced(words: Words, pieces: seq<Words>)
    requires 0 < |words| && pieces == Pieces(words, 0)
    ensures forall k: nat :: k < |pieces| ==> PieceIs(words, pieces[k], k)
  {
    forall k: nat | k < |pieces| ensures PieceIs(words, pieces[k], k) { PieceAt(words, 0, k); }
  }

  lemma LaterPiecesOverlap(words: Words, pieces: seq<Words>)
    requires 0 < |words| && pieces == Pieces(words, 0)
    ensures Overlapping(pieces)
  {
    forall i | 0 < i < |pieces| ensures |pieces[i]| >= CHUNK_OVERLAP { PiecesOverlap(words, 0, i); }
  }

  /** Dropping the overlaps and concatenating gives back the text. */
  lemma RebuiltIsText(words: Words)
    requires 0 < |words|
    ensures Overlapping(Pieces(words, 0))
    ensures Rebuilt(Pieces(words, 0)) == words
  {
    var pieces := Pieces(words, 0);
    LaterPiecesOverlap(words, pieces);
    PiecesPlaced(words, pieces);
    RebuiltPrefix(words, pieces);
    PieceAt(words, 0, |pieces| - 1);
  }

  lemma Reassociate(a: seq<Words>, x: Words, b: seq<Words>)
    ensures a + ([x] + b) == (a + [x]) + b
  {
  }

  method Chunk(words: Words) returns (chunks: seq<Words>)
    ensures chunks == if words == [] then [] else Pieces(words, 0)
  {
    if |words| == 0 {
      return [];
    }
    ghost var all := Pieces(words, 0);
    chunks := [];
    var start := 0;
    while start < |words|
      invariant 0 <= start < |words|
      invariant all == chunks + Pieces(words, start)
      decreases |words| - start
    {
      var end := start + CHUNK_SIZE;
      if end > |words| {
        end := |words|;
      }
      var chunk := words[start..end];
      ghost var rest := if end == |words| then [] else Pieces(words, end - CHUNK_OVERLAP);
      assert Pieces(words, start) == [chunk] + rest;
      Reassociate(chunks, chunk, rest);
      chunks := chunks + [chunk];
      if end == |words| {
        break;
      }
      start := end - CHUNK_OVERLAP;
      if start < 0 {
        start := 0;
      }
    }
  }
}
