/**
 * The two rerankers of scripts/ask_api.py over the merged candidates.
 *
 * `hybrid_rerank`: each channel's scores are renormalised, fused as
 * `alpha * v + (1 - alpha) * k`, stably sorted by descending score and cut
 * to `top_k`.
 *
 * `learned_rerank`: a classifier gives each candidate a probability; the
 * candidates are ordered by `np.argsort(-p)` and the i-th of them is given
 * the probability of the i-th candidate in merge order.
 */
module Fusion {
  import opened Ordering
  import opened Scores
  import opened Retrievers
  import opened Candidates
  import opened Weights

  /** The `alpha` that `ask` uses for the hybrid mode (the parameter's default). */
  const DefaultAlpha: real := 0.6

  function VectorScores(cs: seq<Candidate>): (s: seq<real>)
    ensures |s| == |cs|
  {
    seq(|cs|, i requires 0 <= i < |cs| => cs[i].vectorScore)
  }

  function KeywordScores(cs: seq<Candidate>): (s: seq<real>)
    ensures |s| == |cs|
  {
    seq(|cs|, i requires 0 <= i < |cs| => cs[i].keywordScore)
  }

  function ScoreOf(c: Context): real {
    c.score
  }

  /** One fused context per candidate, from the renormalised channel scores `nv` and `nk`. */
  function Fuse(cs: seq<Candidate>, nv: seq<real>, nk: seq<real>, alpha: real): (r: seq<Context>)
    requires |nv| == |cs| && |nk| == |cs|
    ensures |r| == |cs|
  {
    seq(|cs|, i requires 0 <= i < |cs| => Plain(cs[i].pdf, cs[i].text, FusedScore(alpha, nv[i], nk[i])))
  }

  /** `final_results` of lines 117-122, in merge order. */
  function Fused(cs: seq<Candidate>, alpha: real): (r: seq<Context>)
    ensures |r| == |cs|
  {
    Fuse(cs, Normalize(VectorScores(cs)), Normalize(KeywordScores(cs)), alpha)
  }

  /** The loop of lines 119-122. */
  method FuseScores(cs: seq<Candidate>, alpha: real) returns (r: seq<Context>)
    ensures r == Fused(cs, alpha)
  {
    var vecScores := Normalize(VectorScores(cs));
    var keyScores := Normalize(KeywordScores(cs));
    ghost var target := Fuse(cs, vecScores, keyScores, alpha);
    r := [];
    var i := 0;
    while i < |cs|
      invariant 0 <= i <= |cs|
      invariant r == target[..i]
    {
      var score := FusedScore(alpha, vecScores[i], keyScores[i]);
      r := r + [Plain(cs[i].pdf, cs[i].text, score)];
      assert target[i] == Plain(cs[i].pdf, cs[i].text, score);
      i := i + 1;
    }
    assert target[..i] == target;
  }

  /** `sorted(xs, key=lambda x: x['score'], reverse=True)[:top_k]`. */
  function Ranked(xs: seq<Context>, topK: int): seq<Context> {
    SliceTo(SortDesc(xs, ScoreOf), topK)
  }

  /** What `hybrid_rerank` returns for the two result lists. */
  function Hybrid(vs: seq<Context>, ks: seq<Context>, topK: int, alpha: real): seq<Context> {
    Ranked(Fused(Values(Merged(vs, ks)), alpha), topK)
  }

  /** `hybrid_rerank` after the two searches. */
  method HybridRerank(vs: seq<Context>, ks: seq<Context>, topK: int, alpha: real) returns (r: seq<Context>)
    ensures r == Hybrid(vs, ks, topK, alpha)
  {
    var combined := MergeHits(vs, ks);
    var finalResults := FuseScores(Values(combined), alpha);
    r := Ranked(finalResults, topK);
  }

  /** With `alpha` in [0, 1], every fused score lies in [0, 1). */
  lemma FusedScores(cs: seq<Candidate>, alpha: real)
    requires 0.0 <= alpha <= 1.0
    ensures forall i :: 0 <= i < |cs| ==> 0.0 <= Fused(cs, alpha)[i].score < 1.0
  {
    var nv, nk := Normalize(VectorScores(cs)), Normalize(KeywordScores(cs));
    NormalizeInUnitInterval(VectorScores(cs));
    NormalizeInUnitInterval(KeywordScores(cs));
    forall i | 0 <= i < |cs| ensures 0.0 <= Fused(cs, alpha)[i].score < 1.0 {
      FusedScoreInUnit(alpha, nv[i], nk[i]);
      assert Fused(cs, alpha)[i].score == FusedScore(alpha, nv[i], nk[i]);
    }
  }

  /**
   * A ranked list is a prefix of the input rearranged by non-increasing
   * score: `top_k` elements (fewer when the input is shorter; Python's slice
   * rules for a negative `top_k`), each from the input, and elements with
   * equal scores keep their input order.
   */
  lemma RankedShape(xs: seq<Context>, topK: int)
    ensures |Ranked(xs, topK)|
            == if topK >= 0 then (if topK <= |xs| then topK else |xs|)
               else (if |xs| + topK >= 0 then |xs| + topK else 0)
    ensures Ranked(xs, topK) == SortDesc(xs, ScoreOf)[..|Ranked(xs, topK)|]
    ensures multiset(SortDesc(xs, ScoreOf)) == multiset(xs)
    ensures NonIncreasing(Ranked(xs, topK), ScoreOf)
    ensures forall i :: 0 <= i < |Ranked(xs, topK)| ==> Ranked(xs, topK)[i] in xs
    ensures forall v :: WithKey(SortDesc(xs, ScoreOf), ScoreOf, v) == WithKey(xs, ScoreOf, v)
  {
    var sorted := SortDesc(xs, ScoreOf);
    var r := Ranked(xs, topK);
    assert |sorted| == |xs| by {
      assert |multiset(sorted)| == |multiset(xs)|;
    }
    SortDescSorted(xs, ScoreOf);
    forall v ensures WithKey(sorted, ScoreOf, v) == WithKey(xs, ScoreOf, v) {
      SortDescStable(xs, ScoreOf, v);
    }
    forall i | 0 <= i < |r| ensures r[i] in xs {
      assert r[i] == sorted[i];
      assert sorted[i] in multiset(xs);
    }
  }

  /**
   * The hybrid result ranks the fused candidates as `RankedShape` says, and
   * with `alpha` in [0, 1] every score in it lies in [0, 1).
   */
  lemma HybridScores(vs: seq<Context>, ks: seq<Context>, topK: int, alpha: real)
    requires 0.0 <= alpha <= 1.0
    ensures forall i :: 0 <= i < |Hybrid(vs, ks, topK, alpha)| ==> 0.0 <= Hybrid(vs, ks, topK, alpha)[i].score < 1.0
  {
    var fused := Fused(Values(Merged(vs, ks)), alpha);
    RankedShape(fused, topK);
    FusedScores(Values(Merged(vs, ks)), alpha);
    forall i | 0 <= i < |Hybrid(vs, ks, topK, alpha)| ensures 0.0 <= Hybrid(vs, ks, topK, alpha)[i].score < 1.0 {
      var j :| 0 <= j < |fused| && fused[j] == Hybrid(vs, ks, topK, alpha)[i];
    }
  }

  // ---------------------------------------------------------------------
  // learned_rerank

  /** `clf.predict_proba(feat)[:,1]` for a classifier `proba` on (vector, keyword) scores. */
  function Probabilities(cs: seq<Candidate>, proba: (real, real) -> real): (p: seq<real>)
    ensures |p| == |cs|
  {
    seq(|cs|, i requires 0 <= i < |cs| => proba(cs[i].vectorScore, cs[i].keywordScore))
  }

  /**
   * What `np.argsort(-p)` may return: every index of `p` once, by
   * non-increasing `p`. numpy's default sort is not stable, so the order
   * among equal probabilities is left open.
   */
  predicate IsDescendingOrder(order: seq<int>, p: seq<real>) {
    && |order| == |p|
    && (forall i :: 0 <= i < |order| ==> 0 <= order[i] < |p|)
    && (forall i, j :: 0 <= i < j < |order| ==> order[i] != order[j])
    && (forall i, j :: 0 <= i < j < |order| ==> p[order[i]] >= p[order[j]])
  }

  /**
   * What `learned_rerank` returns given the probabilities `p` of the
   * candidates `cs` and the order `argsort(-p)`: `[]` for no candidates;
   * otherwise the candidates in that order, the i-th carrying `p[i]`, cut to
   * `top_k`.
   */
  function LearnedRank(cs: seq<Candidate>, p: seq<real>, order: seq<int>, topK: int): seq<Context>
    requires |p| == |cs| && IsDescendingOrder(order, p)
  {
    if |cs| == 0 then []
    else
      SliceTo(seq(|cs|, i requires 0 <= i < |cs| =>
        Annotated(cs[order[i]].pdf, cs[order[i]].text, cs[order[i]].vectorScore, cs[order[i]].keywordScore, p[i])),
        topK)
  }

  /** Lines 177-183, after the probabilities and their order are known. */
  method LearnedRerank(cs: seq<Candidate>, p: seq<real>, order: seq<int>, topK: int) returns (r: seq<Context>)
    requires |p| == |cs| && IsDescendingOrder(order, p)
    ensures r == LearnedRank(cs, p, order, topK)
  {
    if |cs| == 0 {
      return [];
    }
    var sortedChunks: seq<Candidate> := [];
    var i := 0;
    while i < |order|
      invariant 0 <= i <= |order|
      invariant |sortedChunks| == i
      invariant forall j :: 0 <= j < i ==> sortedChunks[j] == cs[order[j]]
    {
      sortedChunks := sortedChunks + [cs[order[i]]];
      i := i + 1;
    }
    var scored: seq<Context> := [];
    i := 0;
    while i < |sortedChunks|
      invariant 0 <= i <= |sortedChunks|
      invariant |scored| == i
      invariant forall j :: 0 <= j < i ==>
                  scored[j] == Annotated(sortedChunks[j].pdf, sortedChunks[j].text,
                                         sortedChunks[j].vectorScore, sortedChunks[j].keywordScore, p[j])
    {
      var c := sortedChunks[i];
      scored := scored + [Annotated(c.pdf, c.text, c.vectorScore, c.keywordScore, p[i])];
      i := i + 1;
    }
    r := SliceTo(scored, topK);
  }

  /** No candidates, no results. */
  lemma LearnedEmpty(p: seq<real>, order: seq<int>, topK: int)
    requires |p| == 0 && IsDescendingOrder(order, p)
    ensures LearnedRank([], p, order, topK) == []
  {
  }

  /**
   * Otherwise the result is the `[:top_k]` slice (min(top_k, n) entries,
   * or max(0, n + top_k) for a negative `top_k`) of the candidates ordered
   * by non-increasing own probability, each candidate at most once; and the
   * i-th result carries `p[i]`, the probability of the i-th candidate in
   * merge order, which need not be its own.
   */
  lemma LearnedShape(cs: seq<Candidate>, p: seq<real>, order: seq<int>, topK: int)
    requires |p| == |cs| && IsDescendingOrder(order, p)
    ensures |LearnedRank(cs, p, order, topK)|
            == if topK >= 0 then (if topK < |cs| then topK else |cs|)
               else (if |cs| + topK > 0 then |cs| + topK else 0)
    ensures topK >= 0 ==> |LearnedRank(cs, p, order, topK)| <= topK
    ensures |LearnedRank(cs, p, order, topK)| <= |cs|
    ensures forall i :: 0 <= i < |LearnedRank(cs, p, order, topK)| ==>
              && LearnedRank(cs, p, order, topK)[i].Annotated?
              && LearnedRank(cs, p, order, topK)[i].pdf == cs[order[i]].pdf
              && LearnedRank(cs, p, order, topK)[i].text == cs[order[i]].text
              && LearnedRank(cs, p, order, topK)[i].vectorScore == cs[order[i]].vectorScore
              && LearnedRank(cs, p, order, topK)[i].keywordScore == cs[order[i]].keywordScore
              && LearnedRank(cs, p, order, topK)[i].score == p[i]
    ensures forall i, j :: 0 <= i < j < |LearnedRank(cs, p, order, topK)| ==>
              order[i] != order[j] && p[order[i]] >= p[order[j]]
  {
  }

  /**
   * The returned scores need not be in descending order, nor each chunk's
   * own probability: with probabilities 0.2 and 0.9, the second candidate
   * comes first but carries 0.2, and the first comes second carrying 0.9.
   */
  lemma LearnedScoresMisattributed(a: Candidate, b: Candidate)
    ensures var r := LearnedRank([a, b], [0.2, 0.9], [1, 0], 2);
            && |r| == 2
            && r[0].text == b.text && r[0].score == 0.2
            && r[1].text == a.text && r[1].score == 0.9
            && r[0].score < r[1].score
  {
    assert IsDescendingOrder([1, 0], [0.2, 0.9]);
  }

  // ---------------------------------------------------------------------
  // A stable argsort, one admissible `np.argsort(-p)`

  function Indices(n: nat): (r: seq<int>)
    ensures |r| == n && forall i :: 0 <= i < n ==> r[i] == i
  {
    seq(n, i => i)
  }

  function ProbabilityAt(p: seq<real>): int -> real {
    i => if 0 <= i < |p| then p[i] else 0.0
  }

  /** The indices of `p` by non-increasing probability, ties in index order. */
  function ArgsortDesc(p: seq<real>): seq<int> {
    SortDesc(Indices(|p|), ProbabilityAt(p))
  }

  /** Two equal elements at different positions give a count of at least two. */
  lemma {:induction false} RepeatCounts(xs: seq<int>, i: nat, j: nat)
    requires i < j < |xs| && xs[i] == xs[j]
    ensures multiset(xs)[xs[i]] >= 2
  {
    assert xs == xs[..i] + [xs[i]] + xs[i + 1..j] + [xs[j]] + xs[j + 1..];
  }

  /** Each index appears once among the indices. */
  lemma {:induction false} IndicesCount(n: nat, x: int)
    ensures multiset(Indices(n))[x] == if 0 <= x < n then 1 else 0
  {
    if n > 0 {
      IndicesCount(n - 1, x);
      assert Indices(n) == Indices(n - 1) + [n - 1];
    }
  }

  /** The stable argsort is one of the orders `np.argsort(-p)` may return. */
  lemma ArgsortDescAdmissible(p: seq<real>)
    ensures IsDescendingOrder(ArgsortDesc(p), p)
  {
    var order := ArgsortDesc(p);
    var key := ProbabilityAt(p);
    SortDescSorted(Indices(|p|), key);
    assert |order| == |p| by {
      assert |multiset(order)| == |multiset(Indices(|p|))|;
    }
    forall i | 0 <= i < |order| ensures 0 <= order[i] < |p| {
      assert order[i] in multiset(order);
      IndicesCount(|p|, order[i]);
    }
    forall i, j | 0 <= i < j < |order| ensures order[i] != order[j] {
      if order[i] == order[j] {
        RepeatCounts(order, i, j);
        IndicesCount(|p|, order[i]);
      }
    }
    forall i, j | 0 <= i < j < |order| ensures p[order[i]] >= p[order[j]] {
      assert key(order[i]) >= key(order[j]);
    }
  }
}
