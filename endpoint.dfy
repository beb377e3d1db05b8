/**
 * The `/ask` endpoint of scripts/ask_api.py: mode dispatch, the confidence
 * gate and the extractive answer with citations.
 *
 * The engine's foreign parts are inputs: the chunk list loaded from
 * metadata.json, the FAISS search for an encoded query, the FTS5 MATCH
 * lookup, and the fitted classifier's probability of relevance.
 */
module Endpoint {
  import opened Wrappers
  import opened Text
  import opened Ordering
  import opened PdfRead
  import opened ChunksDb
  import opened Retrievers
  import opened Candidates
  import opened Fusion
  import opened Training

  /** `ANSWER_THRESHOLD`: below this top score the endpoint abstains. */
  const AnswerThreshold: real := 0.1

  /** Results that go into the answer (`max_chunks`). */
  const MaxChunks: int := 2

  /** Characters of a chunk's text kept in its snippet. */
  const SnippetLength: nat := 200

  const AbstainMessage: string := "No confident answer found. Abstaining."

  /**
   * `str(e)` of the `HTTPException(status_code=400, detail="Invalid mode")`
   * that the catch-all handler turns into a 500.
   */
  const InvalidModeDetail: string := "400: Invalid mode"

  // ---------------------------------------------------------------------
  // extract_answer_with_citation

  /** `text.replace("\n", " ")`. */
  function ReplaceNewlines(s: string): (r: string)
    ensures |r| == |s|
    ensures forall i :: 0 <= i < |r| ==> r[i] != '\n'
    ensures forall i :: 0 <= i < |s| && s[i] != '\n' ==> r[i] == s[i]
  {
    seq(|s|, i requires 0 <= i < |s| => if s[i] == '\n' then ' ' else s[i])
  }

  /** The cleaned text of a result: newlines made spaces, then stripped. */
  function Cleaned(text: string): string {
    Strip(ReplaceNewlines(text))
  }

  /** `text[:200] + ("..." if len(text) > 200 else "")` of the cleaned text. */
  function Body(text: string): string {
    var t := Cleaned(text);
    if |t| > SnippetLength then t[..SnippetLength] + "..." else t
  }

  /** The citation that follows each snippet. */
  function Citation(pdf: string): string {
    " (Source: " + pdf + ")"
  }

  /** `f"{snippet} (Source: {r['pdf']})"`. */
  function Snippet(r: Context): string {
    Body(r.text) + Citation(r.pdf)
  }

  /** The snippets of `rs`, in order. */
  function SnippetList(rs: seq<Context>): (s: seq<string>)
    ensures |s| == |rs|
  {
    if rs == [] then [] else SnippetList(rs[..|rs| - 1]) + [Snippet(rs[|rs| - 1])]
  }

  /** `snippets` after the loop over `results[:max_chunks]`. */
  function Snippets(results: seq<Context>): (s: seq<string>)
    ensures |s| == if |results| < MaxChunks then |results| else MaxChunks
  {
    SnippetList(SliceTo(results, MaxChunks))
  }

  /** What `extract_answer_with_citation(results)` returns. */
  function AnswerText(results: seq<Context>): string {
    Join(" ", Snippets(results))
  }

  method ExtractAnswer(results: seq<Context>) returns (answer: string)
    ensures answer == AnswerText(results)
  {
    var snippets: seq<string> := [];
    var top := SliceTo(results, MaxChunks);
    var i := 0;
    while i < |top|
      invariant 0 <= i <= |top|
      invariant snippets == SnippetList(top[..i])
    {
      var cited := CiteSnippet(top[i]);
      SnippetListStep(top, i);
      snippets := snippets + [cited];
      i := i + 1;
    }
    assert top[..i] == top;
    assert snippets == Snippets(results);
    answer := Join(" ", snippets);
  }

  /** One more result adds its snippet at the end. */
  lemma SnippetListStep(rs: seq<Context>, i: nat)
    requires i < |rs|
    ensures SnippetList(rs[..i + 1]) == SnippetList(rs[..i]) + [Snippet(rs[i])]
  {
    assert rs[..i + 1][..i] == rs[..i] && rs[..i + 1][i] == rs[i];
  }

  /** One pass of the loop in `extract_answer_with_citation`. */
  method CiteSnippet(r: Context) returns (cited: string)
    ensures cited == Snippet(r)
  {
    var text := Strip(ReplaceNewlines(r.text));
    var snippet := if |text| > SnippetLength then text[..SnippetLength] + "..." else text;
    cited := snippet + Citation(r.pdf);
  }

  /** The characters `strip()` keeps all come from its input. */
  lemma StripKeeps(s: string)
    ensures forall i :: 0 <= i < |Strip(s)| ==> Strip(s)[i] in s
  {
    StripSlice(s);
  }

  /** Stripping a text without newlines leaves none. */
  lemma StripNoNewline(s: string)
    requires forall i :: 0 <= i < |s| ==> s[i] != '\n'
    ensures forall i :: 0 <= i < |Strip(s)| ==> Strip(s)[i] != '\n'
  {
    StripSlice(s);
    var a, b :| 0 <= a <= b <= |s| && Strip(s) == s[a..b];
    forall i | 0 <= i < |Strip(s)| ensures Strip(s)[i] != '\n' {
      assert Strip(s)[i] == s[a + i];
    }
  }

  /** A body holds no newline and does not start with whitespace. */
  lemma BodyIsClean(text: string)
    ensures forall i :: 0 <= i < |Body(text)| ==> Body(text)[i] != '\n'
    ensures Body(text) != [] ==> !IsSpace(Body(text)[0])
  {
    var t := Cleaned(text);
    StripNoNewline(ReplaceNewlines(text));
    if |t| > SnippetLength {
      var b := Body(text);
      assert b == t[..SnippetLength] + "...";
      forall i | 0 <= i < |b| ensures b[i] != '\n' {
        if i < SnippetLength {
          assert b[i] == t[i];
        } else {
          assert b[i] == "..."[i - SnippetLength];
        }
      }
      assert b[0] == t[0];
    }
  }

  /**
   * A body is the whole cleaned text when that has at most 200 characters;
   * otherwise its first 200 characters followed by "...".
   */
  lemma BodyTruncation(text: string)
    ensures |Cleaned(text)| <= SnippetLength ==> Body(text) == Cleaned(text)
    ensures |Cleaned(text)| > SnippetLength ==>
              && |Body(text)| == SnippetLength + 3
              && Body(text)[..SnippetLength] == Cleaned(text)[..SnippetLength]
              && EndsWith(Body(text), "...")
  {
    if |Cleaned(text)| > SnippetLength {
      assert Body(text)[SnippetLength..] == "...";
    }
  }

  /** Two strings joined: the first, the separator, the second. */
  lemma JoinPair(sep: string, xs: seq<string>)
    requires |xs| == 2
    ensures Join(sep, xs) == xs[0] + sep + xs[1]
  {
    assert xs[1..] == [xs[1]];
  }

  /**
   * The answer joins min(2, |results|) snippets with single spaces: "" for
   * no results, the first snippet alone for one, the first two otherwise.
   */
  lemma AnswerShape(results: seq<Context>)
    ensures results == [] ==> AnswerText(results) == ""
    ensures |results| == 1 ==> AnswerText(results) == Snippet(results[0])
    ensures |results| >= 2 ==> AnswerText(results) == Snippet(results[0]) + " " + Snippet(results[1])
  {
    var top := SliceTo(results, MaxChunks);
    if |results| == 1 {
      assert top == [results[0]] && top[..0] == [];
    } else if |results| >= 2 {
      assert top == [results[0], results[1]] && top[..1] == [results[0]] && top[..1][..0] == [];
      assert SnippetList(top[..1]) == [Snippet(results[0])];
      assert Snippets(results) == [Snippet(results[0]), Snippet(results[1])];
      JoinPair(" ", Snippets(results));
    }
  }

  // ---------------------------------------------------------------------
  // ask

  /** The request body: `q`, `k` (default 5) and `mode` (default "hybrid"). */
  datatype Request = Request(q: string, k: int, mode: string)

  /**
   * The foreign parts of the engine: the chunks of metadata.json, the
   * nearest neighbours FAISS returns for a query and a count, the rows the
   * FTS5 table matches for a MATCH string (`None` for `OperationalError`),
   * and the classifier's probability for (vector score, keyword score).
   */
  datatype Engine = Engine(
    chunks: seq<ChunkMeta>,
    faiss: (string, int) -> seq<Neighbor>,
    fts: string -> Option<seq<FtsRow>>,
    proba: (real, real) -> real)

  /** The JSON body of a successful reply. `answer` is `None` when the endpoint abstains. */
  datatype Reply = Reply(answer: Option<string>, contexts: seq<Context>, rerankerUsed: string, message: Option<string>)

  datatype Response = Success(reply: Reply) | HttpError(status: int, detail: string)

  function Baseline(e: Engine, q: string, k: int): Result<seq<Context>, string> {
    BaselineResults(e.chunks, e.faiss(q, k))
  }

  function Keyword(e: Engine, q: string, k: int): seq<Context> {
    KeywordResults(e.fts, q, k)
  }

  /** `learned_rerank(q, k)` once both searches have returned. */
  function Learned(e: Engine, vs: seq<Context>, ks: seq<Context>, k: int): seq<Context> {
    var cs := Values(Merged(vs, ks));
    var p := Probabilities(cs, e.proba);
    ArgsortDescAdmissible(p);
    LearnedRank(cs, p, ArgsortDesc(p), k)
  }

  /** The results of the requested mode, or the message of the exception raised. */
  function Retrieve(e: Engine, req: Request): Result<seq<Context>, string> {
    if req.mode == "baseline" then Baseline(e, req.q, req.k)
    else if req.mode == "hybrid" then
      match Baseline(e, req.q, req.k * 3)
      case Err(m) => Err(m)
      case Ok(vs) => Ok(Hybrid(vs, Keyword(e, req.q, req.k * 3), req.k, DefaultAlpha))
    else if req.mode == "learned" then
      match Baseline(e, req.q, req.k * 3)
      case Err(m) => Err(m)
      case Ok(vs) => Ok(Learned(e, vs, Keyword(e, req.q, req.k * 3), req.k))
    else Err(InvalidModeDetail)
  }

  /** `not results or results[0]['score'] < ANSWER_THRESHOLD`. */
  predicate Abstains(results: seq<Context>) {
    results == [] || results[0].score < AnswerThreshold
  }

  /** The reply `ask` builds once the results of mode `mode` are known. */
  function Respond(mode: string, results: seq<Context>): Response {
    if Abstains(results) then Success(Reply(None, [], mode, Some(AbstainMessage)))
    else Success(Reply(Some(AnswerText(results)), results, mode, None))
  }

  /** What `ask(req)` returns or raises. */
  function AskSpec(e: Engine, req: Request): Response {
    match Retrieve(e, req)
    case Err(m) => HttpError(500, m)
    case Ok(results) => Respond(req.mode, results)
  }

  /** The endpoint, through the methods that model each step. */
  method Ask(e: Engine, req: Request) returns (resp: Response)
    ensures resp == AskSpec(e, req)
  {
    var results: seq<Context>;
    if req.mode == "baseline" {
      var r := BaselineSearch(e.chunks, e.faiss(req.q, req.k));
      if r.Err? {
        return HttpError(500, r.error);
      }
      results := r.value;
    } else if req.mode == "hybrid" {
      var r := BaselineSearch(e.chunks, e.faiss(req.q, req.k * 3));
      if r.Err? {
        return HttpError(500, r.error);
      }
      results := HybridRerank(r.value, KeywordResults(e.fts, req.q, req.k * 3), req.k, DefaultAlpha);
    } else if req.mode == "learned" {
      var r := BaselineSearch(e.chunks, e.faiss(req.q, req.k * 3));
      if r.Err? {
        return HttpError(500, r.error);
      }
      var combined := MergeHits(r.value, KeywordResults(e.fts, req.q, req.k * 3));
      var cs := Values(combined);
      var p := Probabilities(cs, e.proba);
      ArgsortDescAdmissible(p);
      results := LearnedRerank(cs, p, ArgsortDesc(p), req.k);
    } else {
      return HttpError(500, InvalidModeDetail);
    }
    if results == [] || results[0].score < AnswerThreshold {
      return Success(Reply(None, [], req.mode, Some(AbstainMessage)));
    }
    var answer := ExtractAnswer(results);
    return Success(Reply(Some(answer), results, req.mode, None));
  }

  /**
   * The gate: the endpoint abstains (no answer, no contexts, the fixed
   * message) exactly when retrieval succeeds with no results or with a top
   * score below 0.1; otherwise it answers with the snippets of the results
   * and returns all of them as contexts. Every failure is a 500 carrying
   * the exception's message.
   */
  lemma Gate(e: Engine, req: Request)
    ensures Retrieve(e, req).Err? <==> AskSpec(e, req).HttpError?
    ensures Retrieve(e, req).Err? ==> AskSpec(e, req) == HttpError(500, Retrieve(e, req).error)
    ensures AskSpec(e, req).Success? ==>
              && AskSpec(e, req).reply.rerankerUsed == req.mode
              && (AskSpec(e, req).reply.answer.None? <==> Abstains(Retrieve(e, req).value))
              && (AskSpec(e, req).reply.answer.None? ==>
                    AskSpec(e, req).reply.contexts == [] && AskSpec(e, req).reply.message == Some(AbstainMessage))
              && (AskSpec(e, req).reply.answer.Some? ==>
                    && AskSpec(e, req).reply.contexts == Retrieve(e, req).value
                    && AskSpec(e, req).reply.answer.value == AnswerText(Retrieve(e, req).value)
                    && AskSpec(e, req).reply.message.None?)
  {
  }

  /** A top score of exactly 0.1 is confident enough: the comparison is strict. */
  lemma ThresholdItselfAnswers(mode: string, results: seq<Context>)
    requires results != [] && results[0].score == AnswerThreshold
    ensures Respond(mode, results) == Success(Reply(Some(AnswerText(results)), results, mode, None))
  {
  }

  /**
   * An unknown mode raises the 400 inside the `try`, and the catch-all turns
   * it into a 500 whose detail is the 400's text.
   */
  lemma UnknownModeIsServerError(e: Engine, req: Request)
    requires req.mode != "baseline" && req.mode != "hybrid" && req.mode != "learned"
    ensures AskSpec(e, req) == HttpError(500, InvalidModeDetail)
  {
  }

  /**
   * The handler on its own: with an empty corpus, any neighbour FAISS
   * returns makes the baseline search raise in every mode, so `ask` answers
   * 500 rather than abstaining. In the running service this state is never
   * reached: see `EmptyCorpusStopsStartup`.
   */
  lemma EmptyCorpusIsServerError(e: Engine, req: Request)
    requires e.chunks == []
    requires req.mode == "baseline" ==> e.faiss(req.q, req.k) != []
    requires req.mode != "baseline" ==> e.faiss(req.q, req.k * 3) != []
    ensures AskSpec(e, req).HttpError? && AskSpec(e, req).status == 500
  {
    if req.mode == "baseline" {
      EmptyCorpusFails(e.faiss(req.q, req.k));
    } else {
      EmptyCorpusFails(e.faiss(req.q, req.k * 3));
    }
  }

  /**
   * Line 158 of scripts/ask_api.py trains the classifier when the module is
   * imported. With an empty corpus and a neighbour for the first bootstrap
   * question, that training raises the `IndexError`, so the module never
   * loads and no request is ever served.
   */
  lemma EmptyCorpusStopsStartup(e: Engine)
    requires e.chunks == [] && e.faiss(BootstrapQuestions[0], ResultsPerQuestion) != []
    ensures TrainingTable(BootstrapQuestions, (q, k) => Baseline(e, q, k), (q, k) => Keyword(e, q, k), ApiThreshold)
            == Err(IndexErrorMessage)
  {
    var baseline := (q, k) => Baseline(e, q, k);
    var keyword := (q, k) => Keyword(e, q, k);
    EmptyCorpusFails(e.faiss(BootstrapQuestions[0], ResultsPerQuestion));
    assert BootstrapQuestions[..1][..0] == [];
    assert TrainingTable(BootstrapQuestions[..1], baseline, keyword, ApiThreshold) == Err(IndexErrorMessage);
    PrefixErrorPersists(BootstrapQuestions, 1, baseline, keyword, ApiThreshold);
  }

  /**
   * In the learned mode (`Retrieve` passes `Learned` the two hit lists) the
   * score the gate compares is the probability of the first candidate in
   * merge order, not that of the candidate ranked first.
   */
  lemma LearnedGateReadsFirstCandidate(e: Engine, vs: seq<Context>, ks: seq<Context>, k: int)
    requires k >= 1 && Merged(vs, ks).keys != []
    ensures Learned(e, vs, ks, k) != []
    ensures Learned(e, vs, ks, k)[0].score
            == e.proba(Values(Merged(vs, ks))[0].vectorScore, Values(Merged(vs, ks))[0].keywordScore)
  {
  }
}
