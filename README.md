# RAG reranker: a Dafny model

This project models the retrieval core of a small retrieval-augmented question-answering service over a folder of safety-standard PDFs. It covers four scripts:

- **`scripts/pdfread.py`** cuts the text of every `.pdf` of a folder into chunks of at most 300 words. Each chunk is numbered per file, carries a run-wide `chunk_id` and an estimated page range, and goes into `metadata.json`.
- **`create_chunks_db.py`** turns every entry of `metadata.json` into one row of an FTS5 table. Each row gets a 1-based `rank_val` and a per-name numbered `pdf`.
- **`scripts/ask_api.py`** serves `/ask` with three modes:
  - `baseline`: FAISS nearest neighbours, similarities min-max normalised.
  - `hybrid`: vector and keyword hits merged by the first 100 characters of their text. Each channel is renormalised, fused as `0.6 v + 0.4 k`, stably sorted and cut to `k`.
  - `learned`: the same merge, ranked by a classifier's probability.

  The endpoint abstains when there are no results or the top score is below 0.1. Otherwise it answers with up to two cleaned, truncated and cited snippets. Every exception becomes an HTTP 500.
- **`scripts/learned_reranker.py`**, and the copy inside `ask_api.py`, builds the feature/label table the classifier is fitted on.

## How the model is built

- Imperative loops are Dafny methods. Each one is proved equal to a specification function: `BuildMetadata`, `ChunkWords`, `BuildRows`, `BaselineSearch`, `MergeHits`, `FuseScores`, `LearnedRerank`, `BuildTable`, `ExtractAnswer`, `Ask`. The properties the scripts promise are lemmas about those functions.
- The foreign parts are inputs of the model:
  - the FAISS search, a function from query and count to neighbours;
  - the FTS5 `MATCH` lookup, a function from the MATCH string to the matching rows, or `None` for `OperationalError`;
  - the classifier's `predict_proba`, a function of the two scores;
  - the PDF page texts and the `sources.json` titles.
- A Python dict that is updated in place is a value here: `Candidates.Table` keeps its keys in insertion order plus a map, and each update returns a new table.

Modules, one per concern:

- `Text`: `split`, `join`, `strip`, `str(n)`.
- `Ordering`: stable `sorted(..., reverse=True)` and Python slicing.
- `Scores`: `normalize`.
- `PdfRead`, `ChunksDb`: the two offline scripts.
- `Retrievers`: `baseline_search`, `keyword_search`.
- `Candidates`: the prefix-keyed merge.
- `Weights`: the fused score of the hybrid reranker.
- `Fusion`: the two rerankers.
- `Training`: the training table.
- `Endpoint`: snippets, the gate and `ask`.

Behaviours of the code worth knowing, which the model keeps:

- **Empty corpus.** An empty corpus does not make the service abstain: FAISS pads a short answer with index -1, and `chunks[-1]` on an empty list raises `IndexError`. The classifier is trained when `ask_api.py` is imported (line 158), and that training calls the baseline search, so the service fails to start: see `Endpoint.EmptyCorpusStopsStartup`. The handler alone would answer 500: see `Endpoint.EmptyCorpusIsServerError`.
- **Unknown mode.** An unknown mode raises a 400 inside the `try`. The catch-all turns it into a 500 whose detail is `"400: Invalid mode"`.
- **Learned scores.** The learned reranker gives the i-th ranked chunk the probability of the i-th chunk in merge order. Its scores are therefore neither sorted nor each chunk's own. This is what the code does, and the model keeps it: see `Fusion.LearnedScoresMisattributed` and `Endpoint.LearnedGateReadsFirstCandidate`.
- **Label threshold.** The copy of the training loop in `ask_api.py` labels with threshold 0. The standalone script uses 0.4. The threshold is a parameter of `Training.TrainingTable`, and `Training.ThresholdsDisagree` says on which rows the two copies differ.

## Model

| member | source | states |
|---|---|---|
| Text.Words | scripts/pdfread.py:36 | `split()` yields non-empty runs without whitespace, made only of characters of the input |
| Text.Gaps | scripts/pdfread.py:36 | the whitespace `split()` drops: one blank gap more than words, non-empty between two words |
| Text.WordsAfterBlank | scripts/ask_api.py:92 | leading whitespace does not change what `split()` returns |
| Text.InterleaveGaps | scripts/pdfread.py:36 | the words with their gaps put back between them rebuild the input exactly |
| Text.WordsOfInterleave | scripts/pdfread.py:36 | any words laid out with blank gaps, non-empty between words, split back into exactly those words |
| Text.WordsCharacterised | scripts/pdfread.py:36 | `split()` returns `ws` exactly when the input is `ws` laid out with blank gaps that are non-empty between words |
| Text.WordsOfJoin | scripts/pdfread.py:45-46 | splitting words joined by single spaces gives back exactly those words |
| Text.JoinCollapsed | scripts/ask_api.py:92 | words joined by single spaces have no leading, trailing or repeated whitespace |
| Text.Strip | scripts/ask_api.py:190 | `strip()` returns "" or a string that neither starts nor ends with whitespace |
| Text.StripSlice | scripts/ask_api.py:190 | `strip()` keeps one contiguous slice of its input and removes only whitespace on either side |
| Text.NatToString | scripts/pdfread.py:48 | `str(n)` is a non-empty string of decimal digits |
| Text.ParseNatToString | scripts/pdfread.py:48 | reading the printed counter back gives the counter |
| Text.NatToStringInjective | create_chunks_db.py:36 | distinct counters print differently |
| Ordering.SortDesc | scripts/ask_api.py:123 | `sorted(..., reverse=True)` is a permutation of its input |
| Ordering.SortDescSorted | scripts/ask_api.py:123 | the sorted list is ordered by non-increasing key |
| Ordering.SortDescStable | scripts/ask_api.py:123 | elements with equal keys keep their input order (Python's sort is stable) |
| Ordering.SliceTo | scripts/ask_api.py:123 | `xs[:n]` is the prefix of length min(n, len) for n ≥ 0, and len + n (at least 0) for negative n |
| Scores.Max | scripts/ask_api.py:72 | `max()` bounds every score and is one of them |
| Scores.Min | scripts/ask_api.py:72 | `min()` is below every score and is one of them |
| Scores.Normalize | scripts/ask_api.py:70-74 | one output per score; all zeros when the input is empty or constant |
| Scores.NormalizeInUnitInterval | scripts/ask_api.py:74 | every normalised score lies in [0, 1); the 1e-8 keeps it below 1 |
| Scores.NormalizeMonotone | scripts/ask_api.py:74 | a score not above another is not normalised above it |
| Scores.NormalizeMinIsZero | scripts/ask_api.py:74 | the minimum maps to 0 |
| Scores.NormalizeAllZerosIffFlat | scripts/ask_api.py:72-74 | the output is all zeros exactly when the input is empty or constant |
| PdfRead.ExtractText | scripts/pdfread.py:28-34 | `page_texts` is the non-empty page texts in order; `text` is each of them followed by a newline |
| PdfRead.NoPagesNoText | scripts/pdfread.py:28-34 | without a non-empty page the text is empty, so the page estimate never divides by zero |
| PdfRead.Stem | scripts/pdfread.py:38 | the base name plus ".pdf" is the file name |
| PdfRead.WordsPerPage | scripts/pdfread.py:51 | the words-per-page estimate is at least 1 |
| PdfRead.TotalChunksBounds | scripts/pdfread.py:42-44 | `total_chunks` counts exactly the loop's chunk starts: j < total iff 300 j < number of words |
| PdfRead.ChunkAt | scripts/pdfread.py:45-67 | the record of chunk j; its contracts are `PdfRead.ChunkWordsAt`, `PdfRead.ChunkNumbering` and `PdfRead.ChunkPages` |
| PdfRead.FileChunks | scripts/pdfread.py:36-67 | the chunks of one file; its contracts are `PdfRead.ChunkSizes` and `PdfRead.FileChunksReassemble` |
| PdfRead.Step | scripts/pdfread.py:25-67 | one pass of the folder loop; `PdfRead.ChunkFile` is proved equal to it |
| PdfRead.Run | scripts/pdfread.py:24-67 | the folder loop; its contracts are `PdfRead.RunChunkIds`, `PdfRead.RunOnlyPdf`, `PdfRead.RunCounter` and `PdfRead.RunChunkNumbers` |
| PdfRead.CutChunk | scripts/pdfread.py:45-67 | the record of the chunk starting at word 300 j equals the j-th chunk of the file |
| PdfRead.ChunkWords | scripts/pdfread.py:44-67 | the chunk loop appends the file's chunks in order and advances `pdf_counter[base]` by their number |
| PdfRead.ChunkFile | scripts/pdfread.py:25-67 | one `.pdf` file: page extraction, split and chunk loop equal one step of the folder loop |
| PdfRead.BuildMetadata | scripts/pdfread.py:24-67 | the folder loop returns the metadata of the run over the files in order, skipping non-`.pdf` names |
| PdfRead.ChunkWordsAt | scripts/pdfread.py:44-46 | the words of chunk j are words[300 j : 300 j + 300] |
| PdfRead.ChunkSizes | scripts/pdfread.py:42-63 | a file gives ceil(words / 300) chunks; each holds 1 to 300 words, all but the last exactly 300; `chunk_len` counts its words and `total_chunks` is the file's chunk count |
| PdfRead.ChunkNumbering | scripts/pdfread.py:47-66 | chunk j of a file has number counter + j + 1, id run-count + j + 1, the numbered name, the source file and title, and is first paragraph iff j = 0 |
| PdfRead.ChunkPages | scripts/pdfread.py:51-53 | each estimated page range starts at page 1 or later and ends between 1 and the number of non-empty pages |
| PdfRead.PageStartCanExceedPageEnd | scripts/pdfread.py:52-53 | `page_start` is not clamped: 599 words on 300 pages give a chunk starting on page 301 and ending on 300 |
| PdfRead.FileChunksReassemble | scripts/pdfread.py:36-46 | the chunks' words, concatenated in order, are the file's `text.split()`: no word lost, repeated or reordered |
| PdfRead.RunChunkIds | scripts/pdfread.py:56 | `chunk_id` runs 1, 2, 3, ... over the whole run |
| PdfRead.RunOnlyPdf | scripts/pdfread.py:24-25 | every chunk comes from an input file whose name ends with ".pdf" |
| PdfRead.RunCounter | scripts/pdfread.py:47 | `pdf_counter[base]` is the number of chunks emitted so far for that base name |
| PdfRead.RunChunkNumbers | scripts/pdfread.py:47-61 | each chunk's number is one more than the chunks of its base name before it, so numbers run 1, 2, 3, ... per base name across files |
| ChunksDb.LastIndexOf | create_chunks_db.py:36 | `rfind`: -1 or the index of the last occurrence of the character |
| ChunksDb.SplitExtRoot | create_chunks_db.py:36 | `os.path.splitext(name)[0]`; its contract is `ChunksDb.RootOfDotPdf` |
| ChunksDb.NumberedName | create_chunks_db.py:36 | the numbered row name; its contracts are `ChunksDb.NumberedNameInjective` and `ChunksDb.RowNameOfChunkName` |
| ChunksDb.AddRow | create_chunks_db.py:26-41 | one pass of the insert loop; `ChunksDb.InsertRow` is proved equal to it and `ChunksDb.BuildCounters` states its counters |
| ChunksDb.Build | create_chunks_db.py:25-41 | the rows of the insert loop, one per metadata entry, in order |
| ChunksDb.BuildRows | create_chunks_db.py:25-41 | the loop equals the row-building function; row i has `rank_val` i + 1, the entry's text, and its name numbered by the occurrences of that name up to i |
| ChunksDb.InsertRow | create_chunks_db.py:26-41 | one pass bumps the name's counter (1 when new) and appends `(numbered name, text, rank_val)` |
| ChunksDb.BuildCounters | create_chunks_db.py:23-33 | each name's counter equals its number of entries so far; names not seen have no counter |
| ChunksDb.BuildRowsShape | create_chunks_db.py:25-41 | the rows follow the entries in order with rank i + 1, unchanged text and the occurrence-numbered name |
| ChunksDb.OccurrencesGrow | create_chunks_db.py:32-33 | a later entry with the same name has a strictly larger counter |
| ChunksDb.NumberedNameInjective | create_chunks_db.py:36 | different counters give different names for one input name |
| ChunksDb.SameNameDistinctRows | create_chunks_db.py:30-36 | two entries with the same name get different row names |
| ChunksDb.RootOfDotPdf | create_chunks_db.py:36 | `splitext` drops exactly ".pdf" from `a + ".pdf"` when `a` does not end in '.' or '/' |
| ChunksDb.RowNameOfChunkName | create_chunks_db.py:36 | a chunk name `x_chunkN.pdf` is stored as `x_chunkN_chunkM.pdf` |
| ChunksDb.DistinctNamesFirstChunk | create_chunks_db.py:30-31 | when no name repeats, every row is numbered 1 |
| Retrievers.Similarities | scripts/ask_api.py:80 | one similarity per neighbour |
| Retrievers.SimilaritiesAntitone | scripts/ask_api.py:80 | a nearer neighbour is at least as similar as a farther one |
| Retrievers.PyIndex | scripts/ask_api.py:84 | Python list indexing (negative from the end) returns an element of the list |
| Retrievers.BaselineSearch | scripts/ask_api.py:82-86 | the result loop returns the `IndexError` message on a bad index, otherwise one context per neighbour in FAISS order |
| Retrievers.BaselineFailsIff | scripts/ask_api.py:83-85 | the baseline fails exactly when some neighbour index is out of the chunk list's range |
| Retrievers.BaselineShape | scripts/ask_api.py:80-86 | otherwise one context per neighbour, with the indexed chunk's pdf and text and a score in [0, 1); nearer neighbours never score lower |
| Retrievers.EmptyCorpusFails | scripts/ask_api.py:79-84 | with no chunks, any neighbour makes the baseline raise instead of returning [] |
| Retrievers.PaddingIndexIsLastChunk | scripts/ask_api.py:84 | a FAISS padding index -1 silently yields the last chunk |
| Retrievers.ReplaceReserved | scripts/ask_api.py:91 | same length, no reserved character left, every other character unchanged |
| Retrievers.SanitizeShape | scripts/ask_api.py:91-92 | the MATCH string has no reserved character and collapsed whitespace |
| Retrievers.ReplaceNothing | scripts/ask_api.py:91 | a string without reserved characters is unchanged by the substitution |
| Retrievers.SanitizeIdempotent | scripts/ask_api.py:91-92 | sanitising twice equals sanitising once |
| Retrievers.RankScore | scripts/ask_api.py:96 | `1/rank_val` lies in (0, 1] for rank ≥ 1; rank 0 scores 0 |
| Retrievers.ReciprocalAntitone | scripts/ask_api.py:96 | a larger rank never scores higher |
| Retrievers.BaselineResults | scripts/ask_api.py:82-86 | `baseline_search` after the FAISS call; its contracts are `Retrievers.BaselineFailsIff` and `Retrievers.BaselineShape` |
| Retrievers.Sanitize | scripts/ask_api.py:91-92 | the MATCH string; its contracts are `Retrievers.SanitizeShape` and `Retrievers.SanitizeIdempotent` |
| Retrievers.OrderAndLimit | scripts/ask_api.py:93 | `ORDER BY rank_val LIMIT k`; its contract is `Retrievers.OrderAndLimitShape` |
| Retrievers.KeywordResults | scripts/ask_api.py:88-100 | `keyword_search`; its contract is `Retrievers.KeywordShape` |
| Retrievers.OrderAndLimitShape | scripts/ask_api.py:93 | the selection is exactly min(k, matches) rows (all for negative k), the prefix of a stable reordering of the matches by non-decreasing `rank_val`: no row left out ranks before a row taken, and equal ranks keep table order |
| Retrievers.OrderAndLimitPrefix | scripts/ask_api.py:93 | the selection has length min(k, matches) (all for negative k) and is a prefix of the ordered matches |
| Retrievers.RankOrdered | scripts/ask_api.py:93 | ordering keeps every row and puts them in non-decreasing `rank_val` |
| Retrievers.RankStable | scripts/ask_api.py:93 | rows with equal `rank_val` keep their table order |
| Retrievers.KeywordShape | scripts/ask_api.py:93-98 | `OperationalError` gives []; otherwise exactly min(k, matches) results (all for negative k), each a matching row scored 1/rank, and with positive ranks the scores lie in (0, 1] and do not increase |
| Candidates.Key | scripts/ask_api.py:109 | the key is the first min(100, len) characters of the text |
| Candidates.Put | scripts/ask_api.py:110 | a dict assignment keeps keys unique and equal to the map's domain |
| Candidates.PutVector | scripts/ask_api.py:108-110 | a vector hit keeps the table well formed |
| Candidates.PutKeyword | scripts/ask_api.py:111-116 | a keyword hit keeps the table well formed |
| Candidates.PutVectors | scripts/ask_api.py:108-110 | the vector loop keeps the table well formed |
| Candidates.PutKeywords | scripts/ask_api.py:111-116 | the keyword loop keeps the table well formed |
| Candidates.Merged | scripts/ask_api.py:107-116 | `combined` after both loops is well formed |
| Candidates.Values | scripts/ask_api.py:117 | `combined.values()` has one record per key |
| Candidates.MergeHits | scripts/ask_api.py:107-116 | the two loops build exactly the merged table |
| Candidates.AddVectorHits | scripts/ask_api.py:108-110 | the vector loop equals applying each vector hit in order |
| Candidates.AddKeywordHits | scripts/ask_api.py:111-116 | the keyword loop equals applying each keyword hit in order |
| Candidates.MergedKeys | scripts/ask_api.py:107-116 | the keys are the distinct prefixes of the vector hits then the keyword hits, at first occurrence; a key is present iff some hit has it; no key twice; at most |vector| + |keyword| records |
| Candidates.LastWith | scripts/ask_api.py:108-110 | finds a hit with the key iff one exists, and it is the last such hit |
| Candidates.FirstWith | scripts/ask_api.py:115-116 | finds a hit with the key iff one exists, and it is the first such hit |
| Candidates.MergedEntries | scripts/ask_api.py:107-116 | each record is pdf, text and score of the last vector hit with its key, else of the first keyword hit with vector score 0; the keyword score is the last keyword hit's, else 0 |
| Candidates.KeywordOnlyHasNoVectorScore | scripts/ask_api.py:115-116 | a record no vector hit reached has vector score 0 |
| Fusion.VectorScores | scripts/ask_api.py:117 | one vector score per candidate |
| Fusion.KeywordScores | scripts/ask_api.py:118 | one keyword score per candidate |
| Fusion.Fuse | scripts/ask_api.py:119-122 | one fused context per candidate |
| Fusion.Fused | scripts/ask_api.py:117-122 | `final_results` has one entry per candidate, in merge order |
| Fusion.FuseScores | scripts/ask_api.py:119-122 | the fusion loop equals the fused list |
| Fusion.HybridRerank | scripts/ask_api.py:104-123 | `hybrid_rerank` after the searches equals ranking the fused merge and cutting it to `top_k` |
| Weights.Between | scripts/ask_api.py:121 | with alpha in [0, 1] the fused score lies between the vector and the keyword score |
| Weights.FusedScoreInUnit | scripts/ask_api.py:121 | with alpha in [0, 1] and channel scores in [0, 1), the fused score is in [0, 1) |
| Fusion.FusedScores | scripts/ask_api.py:117-122 | every fused score lies in [0, 1) |
| Fusion.Ranked | scripts/ask_api.py:123 | `sorted(..., reverse=True)[:top_k]`; its contract is `Fusion.RankedShape` |
| Fusion.Hybrid | scripts/ask_api.py:104-123 | `hybrid_rerank` after the searches; its contracts are `Fusion.HybridRerank` and `Fusion.HybridScores` |
| Fusion.RankedShape | scripts/ask_api.py:123 | the result is the `top_k`-prefix (Python slice length) of a stable permutation, ordered by non-increasing score, each element from the input |
| Fusion.HybridScores | scripts/ask_api.py:104-123 | every hybrid score lies in [0, 1) |
| Fusion.Probabilities | scripts/ask_api.py:179 | one probability per candidate |
| Fusion.LearnedRerank | scripts/ask_api.py:177-183 | lines 177-183 equal the learned ranking for any order `argsort(-p)` may return |
| Fusion.LearnedRank | scripts/ask_api.py:177-183 | the learned ranking for a given argsort order; its contracts are `Fusion.LearnedShape` and `Fusion.LearnedEmpty` |
| Fusion.LearnedEmpty | scripts/ask_api.py:177-178 | no candidates give [] |
| Fusion.LearnedShape | scripts/ask_api.py:179-183 | exactly the `[:top_k]` slice length: min(top_k, n) for top_k ≥ 0 and max(0, n + top_k) otherwise; the candidates each at most once, by non-increasing own probability, carrying their channel scores, the i-th result scored with the probability of the i-th candidate in merge order |
| Fusion.LearnedScoresMisattributed | scripts/ask_api.py:180-182 | with probabilities 0.2 and 0.9 the top result carries 0.2 and the second 0.9 |
| Fusion.ArgsortDescAdmissible | scripts/ask_api.py:180 | the stable descending argsort is a permutation of the indices by non-increasing probability |
| Training.Label | scripts/learned_reranker.py:48 | label 1 iff the vector score exceeds the threshold, else 0 |
| Training.FeaturesOf | scripts/learned_reranker.py:45-46 | one feature row per merged record |
| Training.LabelsOf | scripts/learned_reranker.py:45-48 | one label per merged record |
| Training.TrainingTable | scripts/learned_reranker.py:26-48 | the feature/label table; its contracts are `Training.TableRows`, `Training.TableFailsIff`, `Training.TableSize` and `Training.ThresholdsDisagree` |
| Training.BuildTable | scripts/learned_reranker.py:26-48 | the question loop equals the table function, failing with the first search error |
| Training.AppendRows | scripts/learned_reranker.py:45-48 | appends each record's features and label, in order |
| Training.PrefixErrorPersists | scripts/learned_reranker.py:29-30 | once a question's search fails, the whole loop fails with that error |
| Training.TableRows | scripts/learned_reranker.py:45-48 | features and labels have equal length; each label is 1 iff its row's vector score exceeds the threshold |
| Training.TableFailsIff | scripts/learned_reranker.py:29-31 | the loop fails iff the baseline search fails for some question |
| Training.TableSize | scripts/learned_reranker.py:33-48 | each question contributes one row per distinct 100-character prefix among its hits |
| Training.LabelsOfMatch | scripts/learned_reranker.py:45-48 | the rows of one question are labelled by their own vector scores |
| Training.LabelledAppend | scripts/learned_reranker.py:45-48 | appending labelled rows to labelled rows keeps every label tied to its row's vector score |
| Training.FeaturesIgnoreThreshold | scripts/learned_reranker.py:26-48 | the threshold only sets labels: the same questions fail, and otherwise the rows are the same |
| Training.ThresholdsDisagree | scripts/learned_reranker.py:48 | the two copies build the same rows; a row is labelled 1 by `ask_api.py` (threshold 0) and 0 by `learned_reranker.py` (threshold 0.4) exactly when its vector score is in (0, 0.4], and never the other way round |
| Training.KeywordOnlyLabelledIrrelevant | scripts/learned_reranker.py:43-48 | a record only the keyword search found has vector score 0 and label 0 |
| Endpoint.Cleaned | scripts/ask_api.py:190 | `text.replace("\n", " ").strip()`; its contracts are `Endpoint.BodyIsClean` and `Endpoint.StripKeeps` |
| Endpoint.Body | scripts/ask_api.py:191 | the truncated text; its contract is `Endpoint.BodyTruncation` |
| Endpoint.Snippet | scripts/ask_api.py:190-192 | one cited snippet; `Endpoint.CiteSnippet` is proved equal to it |
| Endpoint.AnswerText | scripts/ask_api.py:187-193 | `extract_answer_with_citation`; its contract is `Endpoint.AnswerShape`, and `Endpoint.ExtractAnswer` is proved equal to it |
| Endpoint.ReplaceNewlines | scripts/ask_api.py:190 | same length, no newline left, every other character unchanged |
| Endpoint.SnippetList | scripts/ask_api.py:189-192 | one snippet per result |
| Endpoint.Snippets | scripts/ask_api.py:189 | min(2, len(results)) snippets |
| Endpoint.ExtractAnswer | scripts/ask_api.py:187-193 | the snippet loop and join equal the answer text |
| Endpoint.CiteSnippet | scripts/ask_api.py:190-192 | one pass builds the cleaned, truncated text followed by " (Source: pdf)" |
| Endpoint.StripKeeps | scripts/ask_api.py:190 | every character of a stripped text comes from the text |
| Endpoint.BodyIsClean | scripts/ask_api.py:190-191 | a snippet body holds no newline and does not start with whitespace |
| Endpoint.BodyTruncation | scripts/ask_api.py:191 | a cleaned text of at most 200 characters is kept whole; a longer one becomes its first 200 characters plus "..." (203 in all) |
| Endpoint.AnswerShape | scripts/ask_api.py:187-193 | the answer is "" for no results, the first snippet for one, the first two joined by a space otherwise |
| Endpoint.Baseline | scripts/ask_api.py:77-86 | `baseline_search` on the engine's inputs; see `Retrievers.BaselineResults` |
| Endpoint.Keyword | scripts/ask_api.py:88-100 | `keyword_search` on the engine's inputs; see `Retrievers.KeywordResults` |
| Endpoint.Learned | scripts/ask_api.py:160-183 | `learned_rerank` once both searches have returned; its contracts are `Fusion.LearnedShape` and `Endpoint.LearnedGateReadsFirstCandidate` |
| Endpoint.Retrieve | scripts/ask_api.py:198-205 | the results of the requested mode or the exception's message; its contracts are `Endpoint.Gate`, `Endpoint.UnknownModeIsServerError` and `Endpoint.EmptyCorpusIsServerError` |
| Endpoint.Respond | scripts/ask_api.py:207-220 | the threshold gate; its contracts are `Endpoint.Gate` and `Endpoint.ThresholdItselfAnswers` |
| Endpoint.AskSpec | scripts/ask_api.py:196-225 | what `ask` returns; `Endpoint.Ask` is proved equal to it and `Endpoint.Gate` states it |
| Endpoint.Ask | scripts/ask_api.py:196-225 | the endpoint's steps compose to the endpoint's specification |
| Endpoint.Gate | scripts/ask_api.py:198-225 | a 500 with the exception's message iff retrieval raises; otherwise it abstains (no answer, no contexts, the fixed message) iff there are no results or the top score is below 0.1, and else answers with the snippets and returns all results as contexts |
| Endpoint.ThresholdItselfAnswers | scripts/ask_api.py:208 | a top score of exactly 0.1 gets an answer with all results as contexts: the comparison is strict |
| Endpoint.UnknownModeIsServerError | scripts/ask_api.py:205-225 | an unknown mode gives 500 with detail "400: Invalid mode" |
| Endpoint.EmptyCorpusIsServerError | scripts/ask_api.py:198-225 | the handler on its own: with no chunks and any neighbour returned, every mode gives 500 instead of abstaining |
| Endpoint.EmptyCorpusStopsStartup | scripts/ask_api.py:158 | with no chunks and a neighbour for the first bootstrap question, training at import fails with the `IndexError`, so the service never starts |
| Endpoint.LearnedGateReadsFirstCandidate | scripts/ask_api.py:179-208 | in learned mode the top score the gate tests is the probability of the first merged candidate, not of the top-ranked one |

## Left out

- FAISS is an input function. So are `SentenceTransformer` encoding, the index file and its `search`. FAISS's own error for a non-positive `k` is not modelled: the input function is total.
- The SQLite connection, FTS5 tokenisation and `MATCH` semantics are left out. The matching rows are an input. `ORDER BY rank_val` ties are taken in table order, where SQLite leaves that order open.
- The fitting of `LogisticRegression` and `predict_proba` are left out. The probability of relevance is an input function, and the table the classifier is fitted on is modelled. Training runs at import time (`scripts/ask_api.py:158`), so a search failure there stops the service from starting; the model takes the fitted classifier as given.
- Endpoint.UnknownModeIsServerError: the detail "400: Invalid mode" assumes `str()` of an `HTTPException` renders as "status: detail", as recent Starlette releases do; the source pins no version, and older releases render it differently.
- Endpoint.Ask: fixes numpy's `argsort` tie order to the stable one. numpy's default sort leaves the order among equal probabilities open. `Fusion.LearnedRerank` and `Fusion.LearnedShape` hold for every admissible order.
- FastAPI routing, CORS, the static UI and pydantic validation are left out. Requests arrive already parsed, with `k` defaulting to 5 and `mode` to `"hybrid"`. The `print` in the exception handler is left out.
- File I/O is left out: reading `metadata.json` and `sources.json`, writing `metadata.json` and the final prints. PDF text extraction (`PdfReader`, `extract_text`) is an input: one string per page, "" for a page that yields none. The URL parsing that builds the title map is an input: the map itself.
- The order of `os.listdir` is the order of the input file list.
- Scores are exact reals. The model has no float32/float64 rounding, no NaN and no infinities, and `1e-8` is exact.
- The in-place mutation of `combined` records and of `c['score']` in `learned_rerank` is modelled as new values. The keys are distinct, so no two ranked entries share a record.
- `run_questions.py`, `scripts/query_faiss.py`, `scripts/create_embeddings.py` and `scripts/create_sqlite.py` are not part of this model. They are a batch driver and offline index builders outside the core.
- Strings are sequences of Unicode scalar values. `isspace` follows Python's whitespace set, and there is no encoding or normalisation.
