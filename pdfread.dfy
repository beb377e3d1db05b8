/**
 * The chunking pass of scripts/pdfread.py: every `.pdf` of the folder is
 * turned into chunks of at most 300 words, numbered per file, with a
 * run-wide `chunk_id` and an estimated page range.
 *
 * Page text extraction is an input: each file comes with the text of each of
 * its pages, "" for a page that yields none.
 */
module PdfRead {
  import opened Text

  const ChunkSize: nat := 300

  /** A file of the pdf folder: its name and the extracted text of each page. */
  datatype PdfFile = PdfFile(name: string, pages: seq<string>)

  /** One entry of metadata.json. */
  datatype ChunkMeta = ChunkMeta(
    chunkId: nat,
    pdf: string,
    sourcePdf: string,
    title: string,
    text: string,
    chunkNumber: nat,
    totalChunks: nat,
    chunkLen: nat,
    pageStart: int,
    pageEnd: int,
    isFirstParagraph: int)

  /** Everything the loop over files has built so far: `metadata` and `pdf_counter`. */
  datatype Progress = Progress(metadata: seq<ChunkMeta>, counter: map<string, nat>)

  function Smaller(a: int, b: int): int {
    if a <= b then a else b
  }

  /** `page_texts`: the pages whose extracted text is non-empty, in order. */
  function NonEmptyPages(pages: seq<string>): seq<string> {
    if pages == [] then []
    else
      var kept := NonEmptyPages(pages[..|pages| - 1]);
      if pages[|pages| - 1] != "" then kept + [pages[|pages| - 1]] else kept
  }

  /** `text`: every non-empty page text followed by a newline. */
  function PageText(pages: seq<string>): string {
    if pages == [] then ""
    else
      var text := PageText(pages[..|pages| - 1]);
      if pages[|pages| - 1] != "" then text + pages[|pages| - 1] + "\n" else text
  }

  /** `pdf_file.rsplit(".pdf", 1)[0]` for a name that ends with ".pdf". */
  function Stem(name: string): (base: string)
    requires EndsWith(name, ".pdf")
    ensures base + ".pdf" == name
  {
    name[..|name| - 4]
  }

  /** `f"{base}_chunk{n}.pdf"`. */
  function ChunkName(base: string, n: nat): string {
    base + "_chunk" + NatToString(n) + ".pdf"
  }

  /** `sources.get(pdf_file, pdf_file)`. */
  function Title(sources: map<string, string>, name: string): string {
    if name in sources then sources[name] else name
  }

  /** `(len(words) + chunk_size - 1) // chunk_size`. */
  function TotalChunks(wordCount: nat): nat {
    (wordCount + ChunkSize - 1) / ChunkSize
  }

  /** `max(1, len(words) // len(page_texts))`. */
  function WordsPerPage(wordCount: nat, pageCount: nat): (a: nat)
    requires pageCount > 0
    ensures a >= 1
  {
    if wordCount / pageCount >= 1 then wordCount / pageCount else 1
  }

  /** `(i // approx_words_per_page) + 1`. */
  function PageStart(i: nat, perPage: nat): int
    requires perPage > 0
  {
    i / perPage + 1
  }

  /** `min(len(page_texts), ((i + chunk_size - 1) // approx_words_per_page) + 1)`. */
  function PageEnd(i: nat, perPage: nat, pageCount: nat): int
    requires perPage > 0
  {
    Smaller(pageCount, (i + ChunkSize - 1) / perPage + 1)
  }

  function FileWords(f: PdfFile): seq<string> {
    Words(PageText(f.pages))
  }

  /** Words can only come from a non-empty page, so the page estimate never divides by zero. */
  lemma {:induction false} NoPagesNoText(pages: seq<string>)
    ensures NonEmptyPages(pages) == [] ==> PageText(pages) == ""
  {
    if pages != [] {
      NoPagesNoText(pages[..|pages| - 1]);
    }
  }

  /**
   * The `j`-th (0-based) chunk cut from the words of file `name`, which has
   * `pageCount` non-empty pages, numbered after `firstNumber` and `firstId`.
   */
  function ChunkAt(words: seq<string>, pageCount: nat, name: string, title: string,
                   firstId: nat, firstNumber: nat, j: nat): ChunkMeta
    requires EndsWith(name, ".pdf") && pageCount > 0
    requires j < TotalChunks(|words|)
  {
    var i := j * ChunkSize;
    var chunkWords := words[i..Smaller(i + ChunkSize, |words|)];
    var perPage := WordsPerPage(|words|, pageCount);
    ChunkMeta(
      firstId + j + 1,
      ChunkName(Stem(name), firstNumber + j + 1),
      name,
      title,
      Join(" ", chunkWords),
      firstNumber + j + 1,
      TotalChunks(|words|),
      |chunkWords|,
      PageStart(i, perPage),
      PageEnd(i, perPage, pageCount),
      if i == 0 then 1 else 0)
  }

  /** The chunks cut from the words of file `name`, in order. */
  function WordChunks(words: seq<string>, pageCount: nat, name: string, title: string,
                      firstId: nat, firstNumber: nat): seq<ChunkMeta>
    requires EndsWith(name, ".pdf") && (|words| > 0 ==> pageCount > 0)
  {
    seq(TotalChunks(|words|), j requires 0 <= j < TotalChunks(|words|) =>
      ChunkAt(words, pageCount, name, title, firstId, firstNumber, j))
  }

  /** The chunks of one `.pdf` file, in order. */
  function FileChunks(f: PdfFile, title: string, firstId: nat, firstNumber: nat): seq<ChunkMeta>
    requires EndsWith(f.name, ".pdf")
  {
    NoPagesNoText(f.pages);
    WordChunks(FileWords(f), |NonEmptyPages(f.pages)|, f.name, title, firstId, firstNumber)
  }

  /** One iteration of the loop over the folder. */
  function Step(p: Progress, f: PdfFile, sources: map<string, string>): Progress {
    if !EndsWith(f.name, ".pdf") then p
    else
      var base := Stem(f.name);
      var before := if base in p.counter then p.counter[base] else 0;
      var chunks := FileChunks(f, Title(sources, f.name), |p.metadata|, before);
      Progress(p.metadata + chunks,
               if |chunks| == 0 then p.counter else p.counter[base := before + |chunks|])
  }

  /** The state after the loop has visited `files` in order. */
  function Run(files: seq<PdfFile>, sources: map<string, string>): Progress {
    if files == [] then Progress([], map[])
    else Step(Run(files[..|files| - 1], sources), files[|files| - 1], sources)
  }

  // ---------------------------------------------------------------------
  // The script's loops

  /** The page loop: collects `page_texts` and accumulates `text`. */
  method ExtractText(pages: seq<string>) returns (text: string, pageTexts: seq<string>)
    ensures text == PageText(pages) && pageTexts == NonEmptyPages(pages)
  {
    text, pageTexts := "", [];
    var n := 0;
    while n < |pages|
      invariant 0 <= n <= |pages|
      invariant text == PageText(pages[..n]) && pageTexts == NonEmptyPages(pages[..n])
    {
      assert pages[..n + 1][..n] == pages[..n];
      var pageText := pages[n];
      if pageText != "" {
        pageTexts := pageTexts + [pageText];
        text := text + pageText + "\n";
      }
      n := n + 1;
    }
    assert pages[..n] == pages;
  }

  lemma TotalChunksBounds(wordCount: nat, j: nat)
    ensures j < TotalChunks(wordCount) <==> j * ChunkSize < wordCount
  {
  }

  /** The chunk loop over the words of one `.pdf` file: appends its chunks and advances `pdf_counter`. */
  method ChunkWords(words: seq<string>, pageTexts: seq<string>, name: string, title: string,
                    metadata: seq<ChunkMeta>, counter: map<string, nat>)
    returns (metadata': seq<ChunkMeta>, counter': map<string, nat>)
    requires EndsWith(name, ".pdf") && (|words| > 0 ==> |pageTexts| > 0)
    ensures
      var base := Stem(name);
      var before := if base in counter then counter[base] else 0;
      var chunks := WordChunks(words, |pageTexts|, name, title, |metadata|, before);
      && metadata' == metadata + chunks
      && counter' == if |chunks| == 0 then counter else counter[base := before + |chunks|]
  {
    var base := Stem(name);
    var totalChunks := TotalChunks(|words|);
    ghost var before := if base in counter then counter[base] else 0;
    ghost var chunks := WordChunks(words, |pageTexts|, name, title, |metadata|, before);
    metadata', counter' := metadata, counter;
    var i := 0;
    ghost var j := 0;
    while i < |words|
      invariant 0 <= j <= totalChunks && i == j * ChunkSize
      invariant metadata' == metadata + chunks[..j]
      invariant counter' == if j == 0 then counter else counter[base := before + j]
    {
      TotalChunksBounds(|words|, j);
      var number := (if base in counter' then counter'[base] else 0) + 1;
      counter' := counter'[base := number];
      var chunk := CutChunk(words, |pageTexts|, name, title, i, |metadata'| + 1, number, totalChunks,
                            |metadata|, before, j);
      assert metadata' + [chunk] == metadata + chunks[..j + 1] by {
        assert chunk == chunks[j];
        assert chunks[..j + 1] == chunks[..j] + [chunks[j]];
      }
      metadata' := metadata' + [chunk];
      i := i + ChunkSize;
      j := j + 1;
    }
    TotalChunksBounds(|words|, j);
    assert chunks[..j] == chunks;
  }

  /** The body of the chunk loop: the record of the chunk starting at word `i`. */
  method CutChunk(words: seq<string>, pageCount: nat, name: string, title: string, i: nat,
                  chunkId: nat, number: nat, totalChunks: nat,
                  ghost firstId: nat, ghost firstNumber: nat, ghost j: nat)
    returns (chunk: ChunkMeta)
    requires EndsWith(name, ".pdf") && pageCount > 0 && j < TotalChunks(|words|)
    requires i == j * ChunkSize && chunkId == firstId + j + 1 && number == firstNumber + j + 1
    requires totalChunks == TotalChunks(|words|)
    ensures chunk == ChunkAt(words, pageCount, name, title, firstId, firstNumber, j)
  {
    var chunkWords := words[i..Smaller(i + ChunkSize, |words|)];
    var chunkText := Join(" ", chunkWords);
    var numberedName := ChunkName(Stem(name), number);
    var perPage := WordsPerPage(|words|, pageCount);
    var pageStart := PageStart(i, perPage);
    var pageEnd := PageEnd(i, perPage, pageCount);
    chunk := ChunkMeta(chunkId, numberedName, name, title, chunkText,
                       number, totalChunks, |chunkWords|, pageStart, pageEnd,
                       if i == 0 then 1 else 0);
  }

  /** One file of the folder loop: reads its pages, splits the text and chunks it. */
  method ChunkFile(f: PdfFile, sources: map<string, string>, metadata: seq<ChunkMeta>, counter: map<string, nat>)
    returns (metadata': seq<ChunkMeta>, counter': map<string, nat>)
    requires EndsWith(f.name, ".pdf")
    ensures Progress(metadata', counter') == Step(Progress(metadata, counter), f, sources)
  {
    var text, pageTexts := ExtractText(f.pages);
    var words := Words(text);
    NoPagesNoText(f.pages);
    metadata', counter' := ChunkWords(words, pageTexts, f.name, Title(sources, f.name), metadata, counter);
  }

  /** `pdfread.py` as a whole: returns the `metadata` list written to metadata.json. */
  method BuildMetadata(files: seq<PdfFile>, sources: map<string, string>) returns (metadata: seq<ChunkMeta>)
    ensures metadata == Run(files, sources).metadata
  {
    metadata := [];
    var counter: map<string, nat> := map[];
    var n := 0;
    while n < |files|
      invariant 0 <= n <= |files|
      invariant Progress(metadata, counter) == Run(files[..n], sources)
    {
      assert files[..n + 1][..n] == files[..n];
      if EndsWith(files[n].name, ".pdf") {
        metadata, counter := ChunkFile(files[n], sources, metadata, counter);
      }
      n := n + 1;
    }
    assert files[..n] == files;
  }

  // ---------------------------------------------------------------------
  // Properties of the chunking

  /** The words of the chunks' texts, concatenated in chunk order. */
  function AllWords(chunks: seq<ChunkMeta>): seq<string> {
    if chunks == [] then []
    else AllWords(chunks[..|chunks| - 1]) + Words(chunks[|chunks| - 1].text)
  }

  predicate AllWordsValid(words: seq<string>) {
    forall i :: 0 <= i < |words| ==> IsWord(words[i])
  }

  /** Chunk `j` of `cs` holds, as its text, the `j`-th run of 300 words of `words`. */
  predicate ChunksCover(cs: seq<ChunkMeta>, words: seq<string>) {
    forall j :: 0 <= j < |cs| ==>
      && j * ChunkSize < |words|
      && Words(cs[j].text) == words[j * ChunkSize..Smaller(j * ChunkSize + ChunkSize, |words|)]
  }

  lemma WordChunksCover(words: seq<string>, pageCount: nat, name: string, title: string,
                        firstId: nat, firstNumber: nat)
    requires EndsWith(name, ".pdf") && (|words| > 0 ==> pageCount > 0) && AllWordsValid(words)
    ensures ChunksCover(WordChunks(words, pageCount, name, title, firstId, firstNumber), words)
  {
    forall j | 0 <= j < TotalChunks(|words|)
      ensures j * ChunkSize < |words|
      ensures Words(WordChunks(words, pageCount, name, title, firstId, firstNumber)[j].text)
           == words[j * ChunkSize..Smaller(j * ChunkSize + ChunkSize, |words|)]
    {
      ChunkWordsAt(words, pageCount, name, title, firstId, firstNumber, j);
    }
  }

  /** The words of the first `k` covering chunks are the first `300 * k` words (or all of them). */
  lemma {:induction false} CoveredPrefixWords(cs: seq<ChunkMeta>, words: seq<string>, k: nat)
    requires ChunksCover(cs, words) && k <= |cs|
    ensures AllWords(cs[..k]) == words[..Smaller(k * ChunkSize, |words|)]
  {
    if k > 0 {
      var lo, hi := (k - 1) * ChunkSize, Smaller(k * ChunkSize, |words|);
      assert lo < |words| && Words(cs[k - 1].text) == words[lo..hi];
      CoveredPrefixWords(cs, words, k - 1);
      assert Smaller(lo, |words|) == lo;
      assert cs[..k][..k - 1] == cs[..k - 1] && cs[..k][k - 1] == cs[k - 1];
      assert words[..lo] + words[lo..hi] == words[..hi];
    }
  }

  /** Concatenating the words of all chunks of a file, in order, gives back `text.split()`. */
  lemma FileChunksReassemble(f: PdfFile, title: string, firstId: nat, firstNumber: nat)
    requires EndsWith(f.name, ".pdf")
    ensures AllWords(FileChunks(f, title, firstId, firstNumber)) == Words(PageText(f.pages))
  {
    var words := FileWords(f);
    var cs := FileChunks(f, title, firstId, firstNumber);
    NoPagesNoText(f.pages);
    WordChunksCover(words, |NonEmptyPages(f.pages)|, f.name, title, firstId, firstNumber);
    CoveredPrefixWords(cs, words, |cs|);
    TotalChunksBounds(|words|, |cs|);
    if |cs| > 0 {
      TotalChunksBounds(|words|, |cs| - 1);
    }
    assert cs[..|cs|] == cs;
    assert words[..|words|] == words;
  }

  /**
   * Each chunk stores the file's chunk count, has between 1 and 300 words
   * (all but the last exactly 300), and `chunk_len` is the number of words
   * of its text.
   */
  predicate WellSized(cs: seq<ChunkMeta>) {
    forall j :: 0 <= j < |cs| ==>
      && cs[j].totalChunks == |cs|
      && 1 <= cs[j].chunkLen <= ChunkSize
      && cs[j].chunkLen == |Words(cs[j].text)|
      && (j < |cs| - 1 ==> cs[j].chunkLen == ChunkSize)
  }

  /**
   * Chunk `j` is number `firstNumber + j + 1` of base name `base`, is named
   * `f"{base}_chunk{n}.pdf"`, has `chunk_id` `firstId + j + 1`, comes from
   * `source` with its title, and is flagged as first paragraph exactly when
   * `j == 0`.
   */
  predicate NumberedFrom(cs: seq<ChunkMeta>, source: string, base: string, title: string,
                         firstId: nat, firstNumber: nat) {
    forall j :: 0 <= j < |cs| ==>
      && cs[j].chunkNumber == firstNumber + j + 1
      && cs[j].chunkId == firstId + j + 1
      && cs[j].pdf == base + "_chunk" + NatToString(cs[j].chunkNumber) + ".pdf"
      && cs[j].sourcePdf == source
      && cs[j].title == title
      && (cs[j].isFirstParagraph == 1 <==> j == 0)
      && (cs[j].isFirstParagraph == 0 <==> j != 0)
  }

  /** Every estimated page range starts at page 1 or later and ends within the non-empty pages. */
  predicate PagesWithin(cs: seq<ChunkMeta>, pageCount: nat) {
    forall j :: 0 <= j < |cs| ==> 1 <= cs[j].pageStart && 1 <= cs[j].pageEnd <= pageCount
  }

  /** The words of chunk `j` are the `j`-th slice of 300 words. */
  lemma ChunkWordsAt(words: seq<string>, pageCount: nat, name: string, title: string,
                     firstId: nat, firstNumber: nat, j: nat)
    requires EndsWith(name, ".pdf") && (|words| > 0 ==> pageCount > 0) && AllWordsValid(words)
    requires j < TotalChunks(|words|)
    ensures j * ChunkSize < |words|
    ensures Words(WordChunks(words, pageCount, name, title, firstId, firstNumber)[j].text)
         == words[j * ChunkSize..Smaller(j * ChunkSize + ChunkSize, |words|)]
  {
    TotalChunksBounds(|words|, j);
    var lo := j * ChunkSize;
    var slice := words[lo..Smaller(lo + ChunkSize, |words|)];
    assert AllWordsValid(slice) by {
      forall i | 0 <= i < |slice| ensures IsWord(slice[i]) {
        assert slice[i] == words[lo + i];
      }
    }
    WordsOfJoin(slice);
  }

  /** The words of a file yield `ceil(len(words) / 300)` chunks of between 1 and 300 words. */
  lemma ChunkSizes(words: seq<string>, pageCount: nat, name: string, title: string,
                   firstId: nat, firstNumber: nat)
    requires EndsWith(name, ".pdf") && (|words| > 0 ==> pageCount > 0) && AllWordsValid(words)
    ensures |WordChunks(words, pageCount, name, title, firstId, firstNumber)| == TotalChunks(|words|)
    ensures WellSized(WordChunks(words, pageCount, name, title, firstId, firstNumber))
  {
    var cs := WordChunks(words, pageCount, name, title, firstId, firstNumber);
    forall j | 0 <= j < |cs|
      ensures 1 <= cs[j].chunkLen <= ChunkSize && cs[j].chunkLen == |Words(cs[j].text)|
      ensures j < |cs| - 1 ==> cs[j].chunkLen == ChunkSize
    {
      ChunkWordsAt(words, pageCount, name, title, firstId, firstNumber, j);
      TotalChunksBounds(|words|, j + 1);
    }
  }

  /** The chunks of a file are numbered consecutively after its counter and the run's chunk count. */
  lemma ChunkNumbering(words: seq<string>, pageCount: nat, name: string, title: string,
                       firstId: nat, firstNumber: nat)
    requires EndsWith(name, ".pdf") && (|words| > 0 ==> pageCount > 0)
    ensures NumberedFrom(WordChunks(words, pageCount, name, title, firstId, firstNumber),
                         name, Stem(name), title, firstId, firstNumber)
  {
  }

  /** The page estimate of every chunk lies within the file's non-empty pages. */
  lemma ChunkPages(words: seq<string>, pageCount: nat, name: string, title: string,
                   firstId: nat, firstNumber: nat)
    requires EndsWith(name, ".pdf") && (|words| > 0 ==> pageCount > 0)
    ensures PagesWithin(WordChunks(words, pageCount, name, title, firstId, firstNumber), pageCount)
  {
    var cs := WordChunks(words, pageCount, name, title, firstId, firstNumber);
    forall j | 0 <= j < |cs| ensures 1 <= cs[j].pageStart && 1 <= cs[j].pageEnd <= pageCount {
      var i := j * ChunkSize;
      var perPage := WordsPerPage(|words|, pageCount);
      QuotientNonNegative(i, perPage);
      QuotientNonNegative(i + ChunkSize - 1, perPage);
      assert cs[j].pageStart == PageStart(i, perPage);
      assert cs[j].pageEnd == PageEnd(i, perPage, pageCount);
    }
  }

  /**
   * `i // words_per_page` is a page offset, never negative. Stated apart so
   * that the division is reasoned about outside the chunk's larger context.
   */
  lemma QuotientNonNegative(a: nat, b: nat)
    requires b > 0
    ensures a / b >= 0
  {
  }

  /**
   * `page_start` is not clamped: with 599 words on 300 non-empty pages, one
   * word per page is assumed and the second chunk (i = 300) starts on page 301
   * but ends on page 300.
   */
  lemma PageStartCanExceedPageEnd()
    ensures WordsPerPage(599, 300) == 1
    ensures PageStart(300, WordsPerPage(599, 300)) == 301
    ensures PageEnd(300, WordsPerPage(599, 300), 300) == 300
  {
  }

  /** `chunk_id` runs 1, 2, 3, ... over the whole run. */
  lemma {:induction false} RunChunkIds(files: seq<PdfFile>, sources: map<string, string>)
    ensures forall i :: 0 <= i < |Run(files, sources).metadata| ==> Run(files, sources).metadata[i].chunkId == i + 1
  {
    if files != [] {
      var prev := Run(files[..|files| - 1], sources);
      RunChunkIds(files[..|files| - 1], sources);
      var f := files[|files| - 1];
      if EndsWith(f.name, ".pdf") {
        var base := Stem(f.name);
        var before := if base in prev.counter then prev.counter[base] else 0;
        var cs := FileChunks(f, Title(sources, f.name), |prev.metadata|, before);
        NoPagesNoText(f.pages);
        ChunkNumbering(FileWords(f), |NonEmptyPages(f.pages)|, f.name, Title(sources, f.name), |prev.metadata|, before);
        var m := Run(files, sources).metadata;
        assert m == prev.metadata + cs;
        forall i | 0 <= i < |m| ensures m[i].chunkId == i + 1 {
          if i >= |prev.metadata| {
            assert m[i] == cs[i - |prev.metadata|];
            assert cs[i - |prev.metadata|].chunkId == |prev.metadata| + (i - |prev.metadata|) + 1;
          } else {
            assert m[i] == prev.metadata[i];
            assert prev.metadata[i].chunkId == i + 1;
          }
        }
      }
    }
  }

  /** Only files whose name ends with ".pdf" are chunked. */
  lemma {:induction false} RunOnlyPdf(files: seq<PdfFile>, sources: map<string, string>)
    ensures forall c <- Run(files, sources).metadata ::
              EndsWith(c.sourcePdf, ".pdf") && exists f <- files :: f.name == c.sourcePdf
  {
    if files != [] {
      var prev := Run(files[..|files| - 1], sources);
      RunOnlyPdf(files[..|files| - 1], sources);
      var f := files[|files| - 1];
      if EndsWith(f.name, ".pdf") {
        var base := Stem(f.name);
        var before := if base in prev.counter then prev.counter[base] else 0;
        var cs := FileChunks(f, Title(sources, f.name), |prev.metadata|, before);
        NoPagesNoText(f.pages);
        ChunkNumbering(FileWords(f), |NonEmptyPages(f.pages)|, f.name, Title(sources, f.name), |prev.metadata|, before);
        var m := Run(files, sources).metadata;
        assert m == prev.metadata + cs;
        forall c <- m ensures EndsWith(c.sourcePdf, ".pdf") && exists g <- files :: g.name == c.sourcePdf {
          if c in prev.metadata {
            var g :| g in files[..|files| - 1] && g.name == c.sourcePdf;
            assert g in files;
          } else {
            assert c in cs;
            assert f in files;
          }
        }
      } else {
        forall g | g in files[..|files| - 1] ensures g in files {
        }
      }
    }
  }

  /** The chunk comes from a `.pdf` file whose base name is `base`. */
  predicate FromBase(c: ChunkMeta, base: string) {
    EndsWith(c.sourcePdf, ".pdf") && Stem(c.sourcePdf) == base
  }

  /** How many of the chunks come from base name `base`. */
  function CountFromBase(m: seq<ChunkMeta>, base: string): nat {
    if m == [] then 0
    else CountFromBase(m[..|m| - 1], base) + (if FromBase(m[|m| - 1], base) then 1 else 0)
  }

  lemma {:induction false} CountFromBaseAppend(a: seq<ChunkMeta>, b: seq<ChunkMeta>, base: string)
    ensures CountFromBase(a + b, base) == CountFromBase(a, base) + CountFromBase(b, base)
    decreases |b|
  {
    if b == [] {
      assert a + b == a;
    } else {
      assert (a + b)[..|a + b| - 1] == a + b[..|b| - 1];
      assert (a + b)[|a + b| - 1] == b[|b| - 1];
      CountFromBaseAppend(a, b[..|b| - 1], base);
    }
  }

  lemma {:induction false} CountFromOneSource(cs: seq<ChunkMeta>, source: string, base: string)
    requires EndsWith(source, ".pdf")
    requires forall j :: 0 <= j < |cs| ==> cs[j].sourcePdf == source
    ensures CountFromBase(cs, base) == if Stem(source) == base then |cs| else 0
  {
    if cs != [] {
      CountFromOneSource(cs[..|cs| - 1], source, base);
    }
  }

  /** `pdf_counter[base]` counts the chunks of base name `base` emitted so far. */
  lemma {:induction false} RunCounter(files: seq<PdfFile>, sources: map<string, string>)
    ensures forall base :: (if base in Run(files, sources).counter then Run(files, sources).counter[base] else 0)
                           == CountFromBase(Run(files, sources).metadata, base)
  {
    if files != [] {
      var prev := Run(files[..|files| - 1], sources);
      RunCounter(files[..|files| - 1], sources);
      var f := files[|files| - 1];
      var now := Run(files, sources);
      if EndsWith(f.name, ".pdf") {
        var base := Stem(f.name);
        var before := if base in prev.counter then prev.counter[base] else 0;
        var cs := FileChunks(f, Title(sources, f.name), |prev.metadata|, before);
        NoPagesNoText(f.pages);
        ChunkNumbering(FileWords(f), |NonEmptyPages(f.pages)|, f.name, Title(sources, f.name), |prev.metadata|, before);
        assert now.metadata == prev.metadata + cs;
        forall b ensures (if b in now.counter then now.counter[b] else 0) == CountFromBase(now.metadata, b) {
          CountFromBaseAppend(prev.metadata, cs, b);
          CountFromOneSource(cs, f.name, b);
        }
      } else {
        assert now == prev;
      }
    }
  }

  /**
   * Each chunk's number is one more than the number of chunks of its base
   * name before it: the numbers of each base name run 1, 2, 3, ...
   */
  predicate NumberedByBase(m: seq<ChunkMeta>) {
    forall i :: 0 <= i < |m| ==>
      && EndsWith(m[i].sourcePdf, ".pdf")
      && m[i].chunkNumber == CountFromBase(m[..i], Stem(m[i].sourcePdf)) + 1
  }

  lemma NumberedByBaseAppend(a: seq<ChunkMeta>, cs: seq<ChunkMeta>, source: string, before: nat)
    requires NumberedByBase(a) && EndsWith(source, ".pdf")
    requires before == CountFromBase(a, Stem(source))
    requires forall j :: 0 <= j < |cs| ==> cs[j].sourcePdf == source && cs[j].chunkNumber == before + j + 1
    ensures NumberedByBase(a + cs)
  {
    forall i | 0 <= i < |a + cs|
      ensures && EndsWith((a + cs)[i].sourcePdf, ".pdf")
              && (a + cs)[i].chunkNumber == CountFromBase((a + cs)[..i], Stem((a + cs)[i].sourcePdf)) + 1
    {
      if i < |a| {
        NumberedOld(a, cs, i);
      } else {
        NumberedNew(a, cs, source, before, i - |a|);
      }
    }
  }

  /** An old chunk keeps its number when chunks are appended after it. */
  lemma NumberedOld(a: seq<ChunkMeta>, cs: seq<ChunkMeta>, i: nat)
    requires NumberedByBase(a) && i < |a|
    ensures && EndsWith((a + cs)[i].sourcePdf, ".pdf")
            && (a + cs)[i].chunkNumber == CountFromBase((a + cs)[..i], Stem((a + cs)[i].sourcePdf)) + 1
  {
    assert (a + cs)[..i] == a[..i];
    assert (a + cs)[i] == a[i];
  }

  /** The `j`-th appended chunk of `source` follows the `before + j` chunks of its base name ahead of it. */
  lemma NumberedNew(a: seq<ChunkMeta>, cs: seq<ChunkMeta>, source: string, before: nat, j: nat)
    requires EndsWith(source, ".pdf") && before == CountFromBase(a, Stem(source)) && j < |cs|
    requires forall j :: 0 <= j < |cs| ==> cs[j].sourcePdf == source && cs[j].chunkNumber == before + j + 1
    ensures && EndsWith((a + cs)[|a| + j].sourcePdf, ".pdf")
            && (a + cs)[|a| + j].chunkNumber == CountFromBase((a + cs)[..|a| + j], Stem((a + cs)[|a| + j].sourcePdf)) + 1
  {
    assert (a + cs)[|a| + j] == cs[j];
    assert (a + cs)[..|a| + j] == a + cs[..j];
    CountBeforeAppended(a, cs, source, before, j);
  }

  /** Ahead of the `j`-th appended chunk of `source` there are `before + j` chunks of its base name. */
  lemma CountBeforeAppended(a: seq<ChunkMeta>, cs: seq<ChunkMeta>, source: string, before: nat, j: nat)
    requires EndsWith(source, ".pdf") && before == CountFromBase(a, Stem(source)) && j <= |cs|
    requires forall j :: 0 <= j < |cs| ==> cs[j].sourcePdf == source
    ensures CountFromBase(a + cs[..j], Stem(source)) == before + j
  {
    var head := cs[..j];
    assert forall k :: 0 <= k < |head| ==> head[k] == cs[k];
    CountFromBaseAppend(a, head, Stem(source));
    CountFromOneSource(head, source, Stem(source));
  }

  /** Chunk numbers run 1, 2, 3, ... per base name across the whole run. */
  lemma {:induction false} RunChunkNumbers(files: seq<PdfFile>, sources: map<string, string>)
    ensures NumberedByBase(Run(files, sources).metadata)
  {
    if files != [] {
      var prev := Run(files[..|files| - 1], sources);
      RunChunkNumbers(files[..|files| - 1], sources);
      var f := files[|files| - 1];
      if EndsWith(f.name, ".pdf") {
        RunCounter(files[..|files| - 1], sources);
        var base := Stem(f.name);
        var before := if base in prev.counter then prev.counter[base] else 0;
        var cs := FileChunks(f, Title(sources, f.name), |prev.metadata|, before);
        NoPagesNoText(f.pages);
        ChunkNumbering(FileWords(f), |NonEmptyPages(f.pages)|, f.name, Title(sources, f.name), |prev.metadata|, before);
        NumberedByBaseAppend(prev.metadata, cs, f.name, before);
      }
    }
  }
}
