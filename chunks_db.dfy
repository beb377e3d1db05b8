/**
 * The row-building loop of create_chunks_db.py: every entry of metadata.json
 * becomes one row of the `chunks` full-text table, with `rank_val` its
 * 1-based position and `pdf` a name numbered per distinct input name.
 *
 * The SQLite connection and the INSERT statement are not modelled: the rows
 * the loop inserts are collected, in order, into a sequence.
 */
module ChunksDb {
  import opened Text
  import opened PdfRead

  /** One inserted row: `(pdf, text, rank_val)`. */
  datatype FtsRow = FtsRow(pdf: string, text: string, rankVal: int)

  /** The rows inserted so far and `pdf_chunk_counters`. */
  datatype DbState = DbState(rows: seq<FtsRow>, counters: map<string, nat>)

  /** Index of the last occurrence of `c` in `s`, -1 when there is none (`str.rfind`). */
  function LastIndexOf(s: string, c: char): (r: int)
    ensures -1 <= r < |s|
    ensures r >= 0 ==> s[r] == c
    ensures forall k :: r < k < |s| ==> s[k] != c
  {
    if s == [] then -1
    else if s[|s| - 1] == c then |s| - 1
    else LastIndexOf(s[..|s| - 1], c)
  }

  /**
   * `os.path.splitext(p)[0]` on POSIX: the extension starts at the last '.'
   * after the last '/', unless everything between that '/' and that '.' is
   * dots (a leading-dot name such as ".pdf" has no extension).
   */
  function SplitExtRoot(p: string): string {
    var sep := LastIndexOf(p, '/');
    var dot := LastIndexOf(p, '.');
    if dot > sep && exists k :: sep + 1 <= k < dot && p[k] != '.' then p[..dot] else p
  }

  /** `f"{os.path.splitext(pdf_name)[0]}_chunk{n}.pdf"`. */
  function NumberedName(pdfName: string, n: nat): string {
    SplitExtRoot(pdfName) + "_chunk" + NatToString(n) + ".pdf"
  }

  /** How many entries of `chunks` carry the name `name`. */
  function Occurrences(chunks: seq<ChunkMeta>, name: string): nat {
    if chunks == [] then 0
    else Occurrences(chunks[..|chunks| - 1], name) + (if chunks[|chunks| - 1].pdf == name then 1 else 0)
  }

  /** One pass of the loop: the row of `chunk`, inserted with rank `rankVal`. */
  function AddRow(s: DbState, chunk: ChunkMeta, rankVal: int): DbState {
    var name := chunk.pdf;
    var n := if name in s.counters then s.counters[name] + 1 else 1;
    DbState(s.rows + [FtsRow(NumberedName(name, n), chunk.text, rankVal)], s.counters[name := n])
  }

  /** What the loop has built after the entries `chunks`. */
  function Build(chunks: seq<ChunkMeta>): (s: DbState)
    ensures |s.rows| == |chunks|
  {
    if chunks == [] then DbState([], map[])
    else AddRow(Build(chunks[..|chunks| - 1]), chunks[|chunks| - 1], |chunks|)
  }

  /** The loop over the entries of metadata.json. */
  method BuildRows(chunks: seq<ChunkMeta>) returns (rows: seq<FtsRow>, counters: map<string, nat>)
    ensures DbState(rows, counters) == Build(chunks)
    ensures RowsFollow(chunks, rows)
  {
    rows := [];
    counters := map[];
    var i := 0;
    while i < |chunks|
      invariant 0 <= i <= |chunks|
      invariant DbState(rows, counters) == Build(chunks[..i])
    {
      assert chunks[..i + 1][..i] == chunks[..i] && chunks[..i + 1][i] == chunks[i];
      rows, counters := InsertRow(rows, counters, chunks[i], i + 1);
      i := i + 1;
    }
    assert chunks[..|chunks|] == chunks;
    BuildRowsShape(chunks);
  }

  /** The body of the loop: bumps the entry's counter and inserts its row. */
  method InsertRow(rows: seq<FtsRow>, counters: map<string, nat>, chunk: ChunkMeta, rankVal: int)
    returns (rows': seq<FtsRow>, counters': map<string, nat>)
    ensures DbState(rows', counters') == AddRow(DbState(rows, counters), chunk, rankVal)
  {
    var pdfName := chunk.pdf;
    if pdfName !in counters {
      counters' := counters[pdfName := 1];
    } else {
      counters' := counters[pdfName := counters[pdfName] + 1];
    }
    rows' := rows + [FtsRow(NumberedName(pdfName, counters'[pdfName]), chunk.text, rankVal)];
  }

  /**
   * After each entry, the counter of every name seen is the number of
   * entries with that name so far, and no other name has a counter.
   */
  lemma {:induction false} BuildCounters(chunks: seq<ChunkMeta>)
    ensures forall name :: name in Build(chunks).counters <==> Occurrences(chunks, name) > 0
    ensures forall name :: name in Build(chunks).counters ==> Build(chunks).counters[name] == Occurrences(chunks, name)
  {
    if chunks != [] {
      BuildCounters(chunks[..|chunks| - 1]);
    }
  }

  /**
   * One row per entry, in input order: row `i` has `rank_val` i + 1, the
   * entry's text unchanged, and the entry's name numbered by how many entries
   * with that name there are among the first i + 1.
   */
  predicate RowsFollow(chunks: seq<ChunkMeta>, rows: seq<FtsRow>) {
    && |rows| == |chunks|
    && forall i :: 0 <= i < |chunks| ==>
         && rows[i].rankVal == i + 1
         && rows[i].text == chunks[i].text
         && rows[i].pdf == NumberedName(chunks[i].pdf, Occurrences(chunks[..i + 1], chunks[i].pdf))
  }

  lemma {:induction false} BuildRowsShape(chunks: seq<ChunkMeta>)
    ensures RowsFollow(chunks, Build(chunks).rows)
  {
    if chunks != [] {
      var prefix := chunks[..|chunks| - 1];
      var prev := Build(prefix);
      BuildRowsShape(prefix);
      BuildCounters(prefix);
      var rows := Build(chunks).rows;
      assert rows == prev.rows + [rows[|rows| - 1]];
      forall i | 0 <= i < |chunks|
        ensures && rows[i].rankVal == i + 1
                && rows[i].text == chunks[i].text
                && rows[i].pdf == NumberedName(chunks[i].pdf, Occurrences(chunks[..i + 1], chunks[i].pdf))
      {
        if i < |prefix| {
          assert chunks[..i + 1] == prefix[..i + 1];
          assert rows[i] == prev.rows[i];
        } else {
          assert chunks[..i + 1] == chunks;
        }
      }
    }
  }

  /** Occurrence counts grow by one at each entry with that name. */
  lemma {:induction false} OccurrencesGrow(chunks: seq<ChunkMeta>, i: nat, j: nat)
    requires i < j < |chunks| && chunks[i].pdf == chunks[j].pdf
    ensures Occurrences(chunks[..i + 1], chunks[i].pdf) < Occurrences(chunks[..j + 1], chunks[j].pdf)
  {
    OccurrencesPrefix(chunks, i + 1, j, chunks[i].pdf);
    assert chunks[..j + 1][..j] == chunks[..j];
  }

  /** Appending entries never lowers a count. */
  lemma {:induction false} OccurrencesPrefix(chunks: seq<ChunkMeta>, a: nat, b: nat, name: string)
    requires a <= b <= |chunks|
    ensures Occurrences(chunks[..a], name) <= Occurrences(chunks[..b], name)
  {
    if a < b {
      OccurrencesPrefix(chunks, a, b - 1, name);
      assert chunks[..b][..b - 1] == chunks[..b - 1];
    }
  }

  /** Different counters give different names for the same input name. */
  lemma NumberedNameInjective(pdfName: string, a: nat, b: nat)
    ensures a != b ==> NumberedName(pdfName, a) != NumberedName(pdfName, b)
  {
    if NumberedName(pdfName, a) == NumberedName(pdfName, b) {
      var head := SplitExtRoot(pdfName) + "_chunk";
      var x := NumberedName(pdfName, a);
      var y := NumberedName(pdfName, b);
      assert x == head + NatToString(a) + ".pdf";
      assert y == head + NatToString(b) + ".pdf";
      assert |NatToString(a)| == |NatToString(b)|;
      assert NatToString(a) == x[|head|..|x| - 4];
      assert NatToString(b) == y[|head|..|y| - 4];
      NatToStringInjective(a, b);
    }
  }

  /** Two rows built from entries with the same name get different names. */
  lemma SameNameDistinctRows(chunks: seq<ChunkMeta>, rows: seq<FtsRow>, i: nat, j: nat)
    requires RowsFollow(chunks, rows)
    requires i < j < |chunks| && chunks[i].pdf == chunks[j].pdf
    ensures rows[i].pdf != rows[j].pdf
  {
    OccurrencesGrow(chunks, i, j);
    NumberedNameInjective(chunks[i].pdf, Occurrences(chunks[..i + 1], chunks[i].pdf),
                          Occurrences(chunks[..j + 1], chunks[j].pdf));
  }

  /**
   * Entries named `a + ".pdf"`, where `a` does not end in '.' or '/', lose
   * exactly the ".pdf".
   */
  lemma RootOfDotPdf(a: string)
    requires a != [] && a[|a| - 1] != '.' && a[|a| - 1] != '/'
    ensures SplitExtRoot(a + ".pdf") == a
  {
    var p := a + ".pdf";
    assert p[|a|] == '.' && p[|a| + 1] == 'p' && p[|a| + 2] == 'd' && p[|a| + 3] == 'f';
    assert LastIndexOf(p, '.') == |a|;
    var sep := LastIndexOf(p, '/');
    assert sep < |a| - 1 by {
      assert p[|a| - 1] == a[|a| - 1];
    }
    assert p[|a| - 1] != '.';
    assert p[..|a|] == a;
  }

  /**
   * A chunk name written by the chunking pass loses its ".pdf" and gains a
   * second counter: `x_chunk3.pdf` is stored as `x_chunk3_chunkN.pdf`.
   */
  lemma RowNameOfChunkName(base: string, n: nat, count: nat)
    ensures NumberedName(ChunkName(base, n), count)
            == base + "_chunk" + NatToString(n) + "_chunk" + NatToString(count) + ".pdf"
  {
    var a := base + "_chunk" + NatToString(n);
    var s := NatToString(n);
    assert a[|a| - 1] == s[|s| - 1];
    assert IsDigit(s[|s| - 1]);
    assert ChunkName(base, n) == a + ".pdf";
    RootOfDotPdf(a);
  }

  /** When no name repeats, every row gets counter 1. */
  lemma DistinctNamesFirstChunk(chunks: seq<ChunkMeta>, rows: seq<FtsRow>, i: nat)
    requires RowsFollow(chunks, rows)
    requires forall x, y :: 0 <= x < y < |chunks| ==> chunks[x].pdf != chunks[y].pdf
    requires i < |chunks|
    ensures rows[i].pdf == NumberedName(chunks[i].pdf, 1)
  {
    OnlyOccurrence(chunks[..i + 1], chunks[i].pdf);
  }

  /** A name that occurs only at the end of a sequence occurs once. */
  lemma {:induction false} OnlyOccurrence(chunks: seq<ChunkMeta>, name: string)
    requires chunks != [] && chunks[|chunks| - 1].pdf == name
    requires forall x :: 0 <= x < |chunks| - 1 ==> chunks[x].pdf != name
    ensures Occurrences(chunks, name) == 1
  {
    Absent(chunks[..|chunks| - 1], name);
  }

  /** A name that occurs nowhere has count 0. */
  lemma {:induction false} Absent(chunks: seq<ChunkMeta>, name: string)
    requires forall x :: 0 <= x < |chunks| ==> chunks[x].pdf != name
    ensures Occurrences(chunks, name) == 0
  {
    if chunks != [] {
      Absent(chunks[..|chunks| - 1], name);
    }
  }
}
