/**
 * The two retrievers of scripts/ask_api.py with their foreign parts taken
 * as inputs.
 *
 * `baseline_search`: the nearest neighbours FAISS returns for the encoded
 * query become similarities `1 - distance`, rescaled by `normalize`, each
 * attached to the chunk of metadata.json at the neighbour's index.
 *
 * `keyword_search`: the query is sanitised, the FTS5 table is asked for its
 * matching rows, those are ordered by `rank_val` and cut to `k`, and each
 * row scores `1 / rank_val`.
 */
module Retrievers {
  import opened Wrappers
  import opened Text
  import opened Ordering
  import opened Scores
  import opened PdfRead
  import opened ChunksDb

  /**
   * One entry of a result list. The learned reranker returns its merged
   * records, which keep their two channel scores beside the score it sets.
   */
  datatype Context =
    | Plain(pdf: string, text: string, score: real)
    | Annotated(pdf: string, text: string, vectorScore: real, keywordScore: real, score: real)

  /** One column of `D, I = index.search(q_vec, k)`: a distance and a row index. */
  datatype Neighbor = Neighbor(distance: real, index: int)

  /** The message of the `IndexError` a list raises for an index out of range. */
  const IndexErrorMessage: string := "list index out of range"

  // ---------------------------------------------------------------------
  // baseline_search

  /** `1 - D[0]`: distances turned into similarities. */
  function Similarities(hits: seq<Neighbor>): (s: seq<real>)
    ensures |s| == |hits|
  {
    seq(|hits|, i requires 0 <= i < |hits| => 1.0 - hits[i].distance)
  }

  /** A nearer neighbour is at least as similar as a farther one. */
  lemma SimilaritiesAntitone(hits: seq<Neighbor>)
    ensures forall i, j :: 0 <= i < |hits| && 0 <= j < |hits| && hits[i].distance <= hits[j].distance ==>
              Similarities(hits)[j] <= Similarities(hits)[i]
  {
  }

  /** A Python list of length `len` accepts index `n`: negative indices count from the end. */
  predicate IndexOk(n: int, len: nat) {
    -(len as int) <= n < len
  }

  /** `xs[n]` for a Python list. */
  function PyIndex<T>(xs: seq<T>, n: int): (x: T)
    requires IndexOk(n, |xs|)
    ensures x in xs
  {
    if n < 0 then xs[n + |xs|] else xs[n]
  }

  /** Whether every neighbour's index is one the chunk list accepts. */
  predicate AllIndicesOk(chunks: seq<ChunkMeta>, hits: seq<Neighbor>) {
    forall i :: 0 <= i < |hits| ==> IndexOk(hits[i].index, |chunks|)
  }

  /**
   * What `baseline_search` returns for the neighbours `hits`: the `IndexError`
   * of `chunks[idx]` when an index is out of range, otherwise one context per
   * neighbour, in FAISS order.
   */
  function BaselineResults(chunks: seq<ChunkMeta>, hits: seq<Neighbor>): Result<seq<Context>, string> {
    if !AllIndicesOk(chunks, hits) then Err(IndexErrorMessage)
    else
      var scores := Normalize(Similarities(hits));
      Ok(seq(|hits|, i requires 0 <= i < |hits| => ContextOf(chunks, hits[i], scores[i])))
  }

  /** The result entry for one neighbour with its rescaled score. */
  function ContextOf(chunks: seq<ChunkMeta>, hit: Neighbor, score: real): Context
    requires IndexOk(hit.index, |chunks|)
  {
    Plain(PyIndex(chunks, hit.index).pdf, PyIndex(chunks, hit.index).text, score)
  }

  /** The loop of `baseline_search` over `zip(scores, I[0])`. */
  method BaselineSearch(chunks: seq<ChunkMeta>, hits: seq<Neighbor>) returns (r: Result<seq<Context>, string>)
    ensures r == BaselineResults(chunks, hits)
  {
    var scores := Normalize(Similarities(hits));
    var results: seq<Context> := [];
    var i := 0;
    while i < |hits|
      invariant 0 <= i <= |hits|
      invariant forall j :: 0 <= j < i ==> IndexOk(hits[j].index, |chunks|)
      invariant |results| == i
      invariant forall j :: 0 <= j < i ==> results[j] == ContextOf(chunks, hits[j], scores[j])
    {
      var idx := hits[i].index;
      if !IndexOk(idx, |chunks|) {
        assert !AllIndicesOk(chunks, hits);
        return Err(IndexErrorMessage);
      }
      var chunk := PyIndex(chunks, idx);
      results := results + [Plain(chunk.pdf, chunk.text, scores[i])];
      i := i + 1;
    }
    assert AllIndicesOk(chunks, hits);
    assert results == BaselineResults(chunks, hits).value;
    return Ok(results);
  }

  /** The baseline fails exactly when some neighbour index is out of range. */
  lemma BaselineFailsIff(chunks: seq<ChunkMeta>, hits: seq<Neighbor>)
    ensures BaselineResults(chunks, hits).Err? <==> exists i :: 0 <= i < |hits| && !IndexOk(hits[i].index, |chunks|)
  {
  }

  /**
   * Otherwise it returns one context per neighbour, in FAISS order, taken
   * from the chunk list, each scored in [0, 1); a nearer neighbour never
   * scores below a farther one.
   */
  lemma BaselineShape(chunks: seq<ChunkMeta>, hits: seq<Neighbor>)
    requires AllIndicesOk(chunks, hits)
    ensures BaselineResults(chunks, hits).Ok?
    ensures |BaselineResults(chunks, hits).value| == |hits|
    ensures forall i :: 0 <= i < |hits| ==>
              && BaselineResults(chunks, hits).value[i].Plain?
              && 0.0 <= BaselineResults(chunks, hits).value[i].score < 1.0
              && BaselineResults(chunks, hits).value[i].text == PyIndex(chunks, hits[i].index).text
              && BaselineResults(chunks, hits).value[i].pdf == PyIndex(chunks, hits[i].index).pdf
    ensures forall i, j :: 0 <= i < |hits| && 0 <= j < |hits| && hits[i].distance <= hits[j].distance ==>
              BaselineResults(chunks, hits).value[j].score <= BaselineResults(chunks, hits).value[i].score
  {
    var scores := Normalize(Similarities(hits));
    NormalizeInUnitInterval(Similarities(hits));
    NormalizeMonotone(Similarities(hits));
    SimilaritiesAntitone(hits);
    var r := BaselineResults(chunks, hits).value;
    assert forall i :: 0 <= i < |hits| ==> r[i].score == scores[i];
  }

  /**
   * With no chunks at all, any neighbour (FAISS pads a short answer with
   * index -1) makes `chunks[idx]` raise, so the baseline fails instead of
   * returning an empty list.
   */
  lemma EmptyCorpusFails(hits: seq<Neighbor>)
    requires hits != []
    ensures BaselineResults([], hits) == Err(IndexErrorMessage)
  {
    assert !IndexOk(hits[0].index, 0);
  }

  /** A padding index -1 silently returns the last chunk of a non-empty corpus. */
  lemma PaddingIndexIsLastChunk(chunks: seq<ChunkMeta>, hits: seq<Neighbor>, i: nat)
    requires AllIndicesOk(chunks, hits) && i < |hits| && hits[i].index == -1
    ensures BaselineResults(chunks, hits).Ok?
    ensures BaselineResults(chunks, hits).value[i].text == chunks[|chunks| - 1].text
  {
  }

  // ---------------------------------------------------------------------
  // keyword_search: sanitising the query

  /** The characters of the class `["'*?:\[\]()~^&|]` that the query loses. */
  predicate IsReserved(c: char) {
    c in {'"', '\'', '*', '?', ':', '[', ']', '(', ')', '~', '^', '&', '|'}
  }

  /** `re.sub(r'[...]', ' ', query)`: every reserved character becomes a space. */
  function ReplaceReserved(q: string): (r: string)
    ensures |r| == |q|
    ensures forall i :: 0 <= i < |r| ==> !IsReserved(r[i])
    ensures forall i :: 0 <= i < |q| && !IsReserved(q[i]) ==> r[i] == q[i]
  {
    seq(|q|, i requires 0 <= i < |q| => if IsReserved(q[i]) then ' ' else q[i])
  }

  /** `' '.join(re.sub(...).split())`: the query that reaches MATCH. */
  function Sanitize(q: string): string {
    Join(" ", Words(ReplaceReserved(q)))
  }

  /**
   * A sanitised query holds no reserved character, has no leading or
   * trailing whitespace and no run of whitespace: each space stands alone
   * between two other characters.
   */
  lemma SanitizeShape(q: string)
    ensures forall i :: 0 <= i < |Sanitize(q)| ==> !IsReserved(Sanitize(q)[i])
    ensures Collapsed(Sanitize(q))
  {
    var ws := Words(ReplaceReserved(q));
    JoinKeeps(" ", ws, c => !IsReserved(c));
    JoinCollapsed(ws);
  }

  /** A string without reserved characters is left alone by the replacement. */
  lemma ReplaceNothing(s: string)
    requires forall i :: 0 <= i < |s| ==> !IsReserved(s[i])
    ensures ReplaceReserved(s) == s
  {
  }

  /** Sanitising twice is sanitising once. */
  lemma SanitizeIdempotent(q: string)
    ensures Sanitize(Sanitize(q)) == Sanitize(q)
  {
    var ws := Words(ReplaceReserved(q));
    SanitizeShape(q);
    ReplaceNothing(Sanitize(q));
    WordsOfJoin(ws);
  }

  // ---------------------------------------------------------------------
  // keyword_search: the query and its rows

  /** `1/row[2] if row[2] != 0 else 0`. */
  function RankScore(rankVal: int): (s: real)
    ensures rankVal >= 1 ==> 0.0 < s <= 1.0
    ensures rankVal == 0 ==> s == 0.0
  {
    if rankVal != 0 then 1.0 / (rankVal as real) else 0.0
  }

  /** Sort key for `ORDER BY rank_val`, ascending, through the descending sort. */
  function NegRank(r: FtsRow): real {
    -(r.rankVal as real)
  }

  /**
   * `... ORDER BY rank_val LIMIT k` applied to the rows that match; SQLite
   * reads a negative limit as no limit. Rows with equal `rank_val` keep
   * their table order (SQLite leaves that order open).
   */
  function OrderAndLimit(rows: seq<FtsRow>, k: int): seq<FtsRow> {
    var ordered := SortDesc(rows, NegRank);
    if k < 0 then ordered else SliceTo(ordered, k)
  }

  /**
   * What `keyword_search(query, k)` returns, given the FTS5 lookup `fts`
   * from the MATCH string to its matching rows or to `None` when SQLite
   * raises `OperationalError`.
   */
  function KeywordResults(fts: string -> Option<seq<FtsRow>>, query: string, k: int): seq<Context> {
    match fts(Sanitize(query))
    case None => []
    case Some(rows) =>
      var sel := OrderAndLimit(rows, k);
      seq(|sel|, i requires 0 <= i < |sel| => Plain(sel[i].pdf, sel[i].text, RankScore(sel[i].rankVal)))
  }

  /**
   * The selection is the first `k` rows (all of them when `k` is negative or
   * reaches the number of matches) of a stable reordering of the matching
   * rows by non-decreasing `rank_val`: no row left out ranks before a row
   * taken, and rows of equal `rank_val` keep their table order.
   */
  lemma OrderAndLimitShape(rows: seq<FtsRow>, k: int)
    ensures |OrderAndLimit(rows, k)| == if 0 <= k < |rows| then k else |rows|
    ensures OrderAndLimit(rows, k) == SortDesc(rows, NegRank)[..|OrderAndLimit(rows, k)|]
    ensures multiset(SortDesc(rows, NegRank)) == multiset(rows)
    ensures forall i :: 0 <= i < |OrderAndLimit(rows, k)| ==> OrderAndLimit(rows, k)[i] in rows
    ensures forall i, j :: 0 <= i < j < |OrderAndLimit(rows, k)| ==>
              OrderAndLimit(rows, k)[i].rankVal <= OrderAndLimit(rows, k)[j].rankVal
    ensures forall i, j :: 0 <= i < |OrderAndLimit(rows, k)| <= j < |SortDesc(rows, NegRank)| ==>
              OrderAndLimit(rows, k)[i].rankVal <= SortDesc(rows, NegRank)[j].rankVal
    ensures forall v :: WithKey(SortDesc(rows, NegRank), NegRank, v) == WithKey(rows, NegRank, v)
    ensures (k < 0 || k >= |rows|) ==> multiset(OrderAndLimit(rows, k)) == multiset(rows)
  {
    var ordered := SortDesc(rows, NegRank);
    var sel := OrderAndLimit(rows, k);
    OrderAndLimitPrefix(rows, k);
    RankOrdered(rows);
    RankStable(rows);
    assert forall i :: 0 <= i < |sel| ==> sel[i] == ordered[i];
    assert forall i :: 0 <= i < |sel| ==> sel[i] in rows by {
      forall i | 0 <= i < |sel| ensures sel[i] in rows {
        assert sel[i] in multiset(ordered);
      }
    }
  }

  /** The selection is a prefix of the rows ordered by `rank_val`, all of them when there is no limit to apply. */
  lemma OrderAndLimitPrefix(rows: seq<FtsRow>, k: int)
    ensures |OrderAndLimit(rows, k)| == if 0 <= k < |rows| then k else |rows|
    ensures OrderAndLimit(rows, k) == SortDesc(rows, NegRank)[..|OrderAndLimit(rows, k)|]
    ensures (k < 0 || k >= |rows|) ==> OrderAndLimit(rows, k) == SortDesc(rows, NegRank)
  {
    var ordered := SortDesc(rows, NegRank);
    assert |ordered| == |rows| by {
      assert |multiset(ordered)| == |multiset(rows)|;
    }
    if k < 0 || k >= |rows| {
      assert OrderAndLimit(rows, k) == ordered[..|ordered|];
    }
  }

  /** Ordering by `rank_val` keeps every row and puts them in non-decreasing `rank_val`. */
  lemma RankOrdered(rows: seq<FtsRow>)
    ensures |SortDesc(rows, NegRank)| == |rows|
    ensures forall i, j :: 0 <= i < j < |SortDesc(rows, NegRank)| ==>
              SortDesc(rows, NegRank)[i].rankVal <= SortDesc(rows, NegRank)[j].rankVal
  {
    var ordered := SortDesc(rows, NegRank);
    SortDescSorted(rows, NegRank);
    assert |multiset(ordered)| == |multiset(rows)|;
    forall i, j | 0 <= i < j < |ordered| ensures ordered[i].rankVal <= ordered[j].rankVal {
      assert NegRank(ordered[i]) >= NegRank(ordered[j]);
    }
  }

  /** Rows of equal `rank_val` keep their table order. */
  lemma RankStable(rows: seq<FtsRow>)
    ensures forall v :: WithKey(SortDesc(rows, NegRank), NegRank, v) == WithKey(rows, NegRank, v)
  {
    forall v ensures WithKey(SortDesc(rows, NegRank), NegRank, v) == WithKey(rows, NegRank, v) {
      SortDescStable(rows, NegRank, v);
    }
  }

  /**
   * A failed query gives no results; otherwise each result is a matching
   * row scored `1 / rank_val`, there are `k` of them or all the matches when
   * fewer (or `k` is negative), and when every `rank_val` is positive the scores lie in
   * (0, 1] and do not increase down the list.
   */
  lemma KeywordShape(fts: string -> Option<seq<FtsRow>>, query: string, k: int)
    ensures fts(Sanitize(query)).None? ==> KeywordResults(fts, query, k) == []
    ensures fts(Sanitize(query)).Some? ==>
              |KeywordResults(fts, query, k)| == if 0 <= k < |fts(Sanitize(query)).value| then k else |fts(Sanitize(query)).value|
    ensures k >= 0 ==> |KeywordResults(fts, query, k)| <= k
    ensures fts(Sanitize(query)).Some? ==>
              forall i :: 0 <= i < |KeywordResults(fts, query, k)| ==>
                exists row :: row in fts(Sanitize(query)).value
                  && KeywordResults(fts, query, k)[i] == Plain(row.pdf, row.text, RankScore(row.rankVal))
    ensures fts(Sanitize(query)).Some? && (forall row :: row in fts(Sanitize(query)).value ==> row.rankVal >= 1) ==>
              forall i, j :: 0 <= i < j < |KeywordResults(fts, query, k)| ==>
                && 0.0 < KeywordResults(fts, query, k)[j].score
                && KeywordResults(fts, query, k)[j].score <= KeywordResults(fts, query, k)[i].score
                && KeywordResults(fts, query, k)[i].score <= 1.0
  {
    match fts(Sanitize(query))
    case None =>
    case Some(rows) =>
      var sel := OrderAndLimit(rows, k);
      var r := KeywordResults(fts, query, k);
      OrderAndLimitShape(rows, k);
      forall i | 0 <= i < |r|
        ensures exists row :: row in rows && r[i] == Plain(row.pdf, row.text, RankScore(row.rankVal))
      {
        assert sel[i] in rows;
      }
      if forall row :: row in rows ==> row.rankVal >= 1 {
        forall i, j | 0 <= i < j < |r|
          ensures 0.0 < r[j].score <= r[i].score <= 1.0
        {
          assert sel[i] in rows && sel[j] in rows;
          ReciprocalAntitone(sel[i].rankVal, sel[j].rankVal);
        }
      }
  }

  lemma ReciprocalAntitone(a: int, b: int)
    requires 1 <= a <= b
    ensures RankScore(b) <= RankScore(a)
  {
    var x, y := RankScore(a), RankScore(b);
    assert (a as real) * x == 1.0 && (b as real) * y == 1.0;
    if y > x {
      assert false;
    }
  }
}
