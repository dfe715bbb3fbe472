/**
 The meaning of the accumulation loop as pure definitions: what one chunk
 contributes, the fold over a whole stream, and an independent description of
 the same text as the in-order concatenation of the contributing fragments.
 */
module Accumulation {
  import opened Wrappers
  import opened Chat

  /**
   The text a chunk adds to the response: the first choice's content, when the
   chunk has a choice and that content is present; otherwise nothing. The loop
   skips an empty content rather than appending it, which adds the same
   nothing, so this definition does not single it out.
   */
  function Contribution(c: Chunk): string {
    if |c.choices| > 0 then c.choices[0].delta.content.GetOr("") else ""
  }

  /** Whether a chunk adds any text at all. */
  predicate Contributes(c: Chunk) {
    Contribution(c) != ""
  }

  /**
   Contribution is the loop's two truthiness tests: a chunk adds text exactly
   when its choice list is non-empty and its first content is present and
   non-empty, and the text it then adds is that content.
   */
  lemma ContributionMatchesLoopTests(c: Chunk)
    ensures Contributes(c) <==>
            |c.choices| > 0 && c.choices[0].delta.content.Some? && c.choices[0].delta.content.value != ""
    ensures Contributes(c) ==> Contribution(c) == c.choices[0].delta.content.value
  {
  }

  /** The accumulated response after consuming `chunks` in order. */
  function Accumulate(chunks: seq<Chunk>): string {
    if |chunks| == 0 then ""
    else Accumulate(chunks[..|chunks| - 1]) + Contribution(chunks[|chunks| - 1])
  }

  /** The response is empty exactly when no chunk of the stream contributes text. */
  lemma {:induction false} AccumulateEmptyIff(chunks: seq<Chunk>)
    ensures Accumulate(chunks) == "" <==> forall i :: 0 <= i < |chunks| ==> !Contributes(chunks[i])
  {
    if |chunks| > 0 {
      var front := chunks[..|chunks| - 1];
      AccumulateEmptyIff(front);
      assert forall i :: 0 <= i < |front| ==> front[i] == chunks[i];
    }
  }

  /** Concatenation of a sequence of strings, left to right. */
  function Concat(ss: seq<string>): string {
    if |ss| == 0 then "" else Concat(ss[..|ss| - 1]) + ss[|ss| - 1]
  }

  /** The sum of the lengths of a sequence of strings. */
  function SumLengths(ss: seq<string>): nat {
    if |ss| == 0 then 0 else SumLengths(ss[..|ss| - 1]) + |ss[|ss| - 1]|
  }

  ghost predicate StrictlyIncreasing(p: seq<nat>) {
    forall i, j :: 0 <= i < j < |p| ==> p[i] < p[j]
  }

  /**
   The positions, in stream order, of the chunks that add text: each position
   appears once, in increasing order, and exactly the contributing chunks are
   listed.
   */
  function Positions(chunks: seq<Chunk>): (p: seq<nat>)
    ensures StrictlyIncreasing(p)
    ensures forall j :: 0 <= j < |p| ==> p[j] < |chunks|
    ensures forall i :: 0 <= i < |chunks| ==> (i in p <==> Contributes(chunks[i]))
  {
    if |chunks| == 0 then []
    else
      var front := Positions(chunks[..|chunks| - 1]);
      assert forall i :: 0 <= i < |chunks| - 1 ==> chunks[..|chunks| - 1][i] == chunks[i];
      if Contributes(chunks[|chunks| - 1]) then front + [|chunks| - 1] else front
  }

  /** The texts of the contributing chunks, in stream order. */
  function Fragments(chunks: seq<Chunk>): (fs: seq<string>)
    ensures |fs| == |Positions(chunks)|
    ensures forall j :: 0 <= j < |fs| ==> fs[j] != ""
  {
    var p := Positions(chunks);
    seq(|p|, j requires 0 <= j < |p| => Contribution(chunks[p[j]]))
  }

  /** Adding one chunk to the stream extends Fragments by that chunk's text, if any. */
  lemma FragmentsSnoc(chunks: seq<Chunk>, c: Chunk)
    ensures Fragments(chunks + [c]) ==
            Fragments(chunks) + (if Contributes(c) then [Contribution(c)] else [])
  {
  }

  /**
   The fold agrees with the independent description: the accumulated text is
   the concatenation of the contributing fragments, in stream order.
   */
  lemma {:induction false} AccumulateIsConcatOfFragments(chunks: seq<Chunk>)
    ensures Accumulate(chunks) == Concat(Fragments(chunks))
  {
    if |chunks| > 0 {
      var front := chunks[..|chunks| - 1];
      var c := chunks[|chunks| - 1];
      assert chunks == front + [c];
      AccumulateIsConcatOfFragments(front);
      FragmentsSnoc(front, c);
      var fs := Fragments(chunks);
      if Contributes(c) {
        assert fs[..|fs| - 1] == Fragments(front);
      } else {
        assert fs == Fragments(front);
      }
    }
  }

  /** The length of a concatenation is the sum of the parts' lengths. */
  lemma {:induction false} ConcatLength(ss: seq<string>)
    ensures |Concat(ss)| == SumLengths(ss)
  {
    if |ss| > 0 {
      ConcatLength(ss[..|ss| - 1]);
    }
  }

  /** The final length is the sum of the lengths of the contributing texts. */
  lemma AccumulateLength(chunks: seq<Chunk>)
    ensures |Accumulate(chunks)| == SumLengths(Fragments(chunks))
  {
    AccumulateIsConcatOfFragments(chunks);
    ConcatLength(Fragments(chunks));
  }

  /**
   Accumulation distributes over stream concatenation: consuming `a` and then
   `b` gives the text of `a` followed by the text of `b`.
   */
  lemma {:induction false} AccumulateAppend(a: seq<Chunk>, b: seq<Chunk>)
    ensures Accumulate(a + b) == Accumulate(a) + Accumulate(b)
  {
    if |b| == 0 {
      assert a + b == a;
    } else {
      var front := b[..|b| - 1];
      assert (a + b)[..|a + b| - 1] == a + front;
      AccumulateAppend(a, front);
    }
  }

  /**
   Each intermediate value of the accumulator is a prefix of every later one,
   and so of the final response.
   */
  lemma PrefixMonotone(chunks: seq<Chunk>, k: nat, m: nat)
    requires k <= m <= |chunks|
    ensures Accumulate(chunks[..k]) <= Accumulate(chunks[..m])
  {
    assert chunks[..m] == chunks[..k] + chunks[k..m];
    AccumulateAppend(chunks[..k], chunks[k..m]);
  }

  /**
   A chunk with no choices, or whose first choice carries absent or empty
   content, leaves the response unchanged wherever it occurs in the stream.
   */
  lemma SilentChunkSkipped(a: seq<Chunk>, c: Chunk, b: seq<Chunk>)
    requires |c.choices| == 0
             || c.choices[0].delta.content == None
             || c.choices[0].delta.content == Some("")
    ensures Accumulate(a + [c] + b) == Accumulate(a + b)
  {
    AccumulateAppend(a + [c], b);
    AccumulateAppend(a, [c]);
    AccumulateAppend(a, b);
    assert [c][..0] == [];
  }

  /** Two streams whose chunks contribute the same texts accumulate to the same response. */
  lemma {:induction false} SameContributionsSameResponse(x: seq<Chunk>, y: seq<Chunk>)
    requires |x| == |y|
    requires forall i :: 0 <= i < |x| ==> Contribution(x[i]) == Contribution(y[i])
    ensures Accumulate(x) == Accumulate(y)
  {
    if |x| > 0 {
      SameContributionsSameResponse(x[..|x| - 1], y[..|y| - 1]);
    }
  }

  /**
   Only the first choice of a chunk is read: streams that agree on which
   chunks have choices, and on every first choice, accumulate to the same
   response whatever their further choices are.
   */
  lemma {:induction false} OnlyFirstChoiceRead(x: seq<Chunk>, y: seq<Chunk>)
    requires |x| == |y|
    requires forall i :: 0 <= i < |x| ==> (|x[i].choices| == 0 <==> |y[i].choices| == 0)
    requires forall i :: 0 <= i < |x| && |x[i].choices| > 0 && |y[i].choices| > 0 ==>
               x[i].choices[0] == y[i].choices[0]
    ensures Accumulate(x) == Accumulate(y)
  {
    SameContributionsSameResponse(x, y);
  }
}
