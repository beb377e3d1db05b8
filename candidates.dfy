/**
 * The candidate merge of scripts/ask_api.py (`hybrid_rerank`,
 * `train_learned_reranker`, `learned_rerank`) and
 * scripts/learned_reranker.py: vector hits, then keyword hits, go into a
 * dict keyed by the first 100 characters of their text.
 *
 * The dict is a sequence of keys in insertion order plus a map from key to
 * record. Assigning to a key already present overwrites its record but keeps
 * its position, as a Python dict does.
 */
module Candidates {
  import opened Wrappers
  import opened Retrievers

  /** Characters of a text that form its merge key. */
  const KeyLength: nat := 100

  /** One record of `combined`. */
  datatype Candidate = Candidate(pdf: string, text: string, vectorScore: real, keywordScore: real)

  /** `combined`: keys in insertion order, and the record of each. */
  datatype Table = Table(keys: seq<string>, entries: map<string, Candidate>)

  const EmptyTable := Table([], map[])

  /** `r['text'][:100]`. */
  function Key(text: string): (k: string)
    ensures |k| == (if |text| < KeyLength then |text| else KeyLength)
    ensures k == text[..|k|]
  {
    if |text| <= KeyLength then text else text[..KeyLength]
  }

  predicate NoDuplicates(xs: seq<string>) {
    forall i, j :: 0 <= i < j < |xs| ==> xs[i] != xs[j]
  }

  /** The keys are exactly the map's domain, each listed once. */
  predicate Valid(t: Table) {
    && NoDuplicates(t.keys)
    && (forall k :: k in t.entries ==> k in t.keys)
    && (forall k :: k in t.keys ==> k in t.entries)
  }

  /** `combined[k] = v`. */
  function Put(t: Table, k: string, v: Candidate): (r: Table)
    requires Valid(t)
    ensures Valid(r)
  {
    Table(if k in t.entries then t.keys else t.keys + [k], t.entries[k := v])
  }

  /** Lines 108-110: a vector hit (re)writes the whole record of its key. */
  function PutVector(t: Table, h: Context): (r: Table)
    requires Valid(t)
    ensures Valid(r)
  {
    Put(t, Key(h.text), Candidate(h.pdf, h.text, h.score, 0.0))
  }

  /**
   * Lines 111-116: a keyword hit sets the keyword score of an existing key,
   * or adds a record with vector score 0.
   */
  function PutKeyword(t: Table, h: Context): (r: Table)
    requires Valid(t)
    ensures Valid(r)
  {
    var k := Key(h.text);
    if k in t.entries then Put(t, k, t.entries[k].(keywordScore := h.score))
    else Put(t, k, Candidate(h.pdf, h.text, 0.0, h.score))
  }

  function PutVectors(t: Table, hs: seq<Context>): (r: Table)
    requires Valid(t)
    ensures Valid(r)
  {
    if hs == [] then t else PutVector(PutVectors(t, hs[..|hs| - 1]), hs[|hs| - 1])
  }

  function PutKeywords(t: Table, hs: seq<Context>): (r: Table)
    requires Valid(t)
    ensures Valid(r)
  {
    if hs == [] then t else PutKeyword(PutKeywords(t, hs[..|hs| - 1]), hs[|hs| - 1])
  }

  /** `combined` after both loops. */
  function Merged(vs: seq<Context>, ks: seq<Context>): (r: Table)
    ensures Valid(r)
  {
    PutKeywords(PutVectors(EmptyTable, vs), ks)
  }

  /** `combined.values()`, in insertion order. */
  function Values(t: Table): (cs: seq<Candidate>)
    requires Valid(t)
    ensures |cs| == |t.keys|
  {
    seq(|t.keys|, i requires 0 <= i < |t.keys| => t.entries[t.keys[i]])
  }

  /** The two loops that fill `combined`. */
  method MergeHits(vs: seq<Context>, ks: seq<Context>) returns (t: Table)
    ensures Valid(t) && t == Merged(vs, ks)
  {
    t := AddVectorHits(EmptyTable, vs);
    t := AddKeywordHits(t, ks);
  }

  /** Lines 108-110. */
  method AddVectorHits(t0: Table, vs: seq<Context>) returns (t: Table)
    requires Valid(t0)
    ensures Valid(t) && t == PutVectors(t0, vs)
  {
    t := t0;
    var i := 0;
    while i < |vs|
      invariant 0 <= i <= |vs|
      invariant Valid(t) && t == PutVectors(t0, vs[..i])
    {
      assert vs[..i + 1][..i] == vs[..i];
      ghost var next := PutVector(t, vs[i]);
      assert next == PutVectors(t0, vs[..i + 1]);
      var key := Key(vs[i].text);
      t := Put(t, key, Candidate(vs[i].pdf, vs[i].text, vs[i].score, 0.0));
      i := i + 1;
    }
    assert vs[..|vs|] == vs;
  }

  /** Lines 111-116. */
  method AddKeywordHits(t0: Table, ks: seq<Context>) returns (t: Table)
    requires Valid(t0)
    ensures Valid(t) && t == PutKeywords(t0, ks)
  {
    t := t0;
    var j := 0;
    while j < |ks|
      invariant 0 <= j <= |ks|
      invariant Valid(t) && t == PutKeywords(t0, ks[..j])
    {
      assert ks[..j + 1][..j] == ks[..j];
      ghost var next := PutKeyword(t, ks[j]);
      assert next == PutKeywords(t0, ks[..j + 1]);
      var key := Key(ks[j].text);
      if key in t.entries {
        t := Put(t, key, t.entries[key].(keywordScore := ks[j].score));
      } else {
        t := Put(t, key, Candidate(ks[j].pdf, ks[j].text, 0.0, ks[j].score));
      }
      assert t == next;
      j := j + 1;
    }
    assert ks[..|ks|] == ks;
  }

  // ---------------------------------------------------------------------
  // A reference for the keys: first occurrences, in order

  function KeysOf(hs: seq<Context>): (ks: seq<string>)
    ensures |ks| == |hs|
  {
    seq(|hs|, i requires 0 <= i < |hs| => Key(hs[i].text))
  }

  /** `keys` followed by each element of `xs` not seen before, in order. */
  function AppendNew(keys: seq<string>, xs: seq<string>): seq<string> {
    if xs == [] then keys
    else
      var r := AppendNew(keys, xs[..|xs| - 1]);
      if xs[|xs| - 1] in r then r else r + [xs[|xs| - 1]]
  }

  /** `xs` with repeats removed, each element at its first occurrence. */
  function Distinct(xs: seq<string>): seq<string> {
    AppendNew([], xs)
  }

  lemma {:induction false} AppendNewShape(keys: seq<string>, xs: seq<string>)
    requires NoDuplicates(keys)
    ensures NoDuplicates(AppendNew(keys, xs))
    ensures forall k :: k in AppendNew(keys, xs) <==> k in keys || k in xs
    ensures |AppendNew(keys, xs)| <= |keys| + |xs|
  {
    if xs != [] {
      AppendNewShape(keys, xs[..|xs| - 1]);
      assert forall k :: k in xs <==> k in xs[..|xs| - 1] || k == xs[|xs| - 1] by {
        assert xs == xs[..|xs| - 1] + [xs[|xs| - 1]];
      }
    }
  }

  lemma {:induction false} AppendNewAppend(keys: seq<string>, a: seq<string>, b: seq<string>)
    ensures AppendNew(AppendNew(keys, a), b) == AppendNew(keys, a + b)
  {
    if b != [] {
      AppendNewAppend(keys, a, b[..|b| - 1]);
      assert (a + b)[..|a + b| - 1] == a + b[..|b| - 1];
    } else {
      assert a + b == a;
    }
  }

  lemma {:induction false} PutVectorsKeys(t: Table, hs: seq<Context>)
    requires Valid(t)
    ensures PutVectors(t, hs).keys == AppendNew(t.keys, KeysOf(hs))
  {
    if hs != [] {
      PutVectorsKeys(t, hs[..|hs| - 1]);
      assert KeysOf(hs)[..|hs| - 1] == KeysOf(hs[..|hs| - 1]);
    }
  }

  lemma {:induction false} PutKeywordsKeys(t: Table, hs: seq<Context>)
    requires Valid(t)
    ensures PutKeywords(t, hs).keys == AppendNew(t.keys, KeysOf(hs))
  {
    if hs != [] {
      PutKeywordsKeys(t, hs[..|hs| - 1]);
      assert KeysOf(hs)[..|hs| - 1] == KeysOf(hs[..|hs| - 1]);
    }
  }

  /**
   * The merged keys are the distinct 100-character prefixes of the vector
   * hits' texts, then of the keyword hits' texts, each at its first
   * occurrence: a key is merged exactly when some hit has it, no key twice,
   * so there are at most |vector hits| + |keyword hits| candidates.
   */
  lemma MergedKeys(vs: seq<Context>, ks: seq<Context>)
    ensures Merged(vs, ks).keys == Distinct(KeysOf(vs) + KeysOf(ks))
    ensures forall k :: k in Merged(vs, ks).keys <==> k in KeysOf(vs) || k in KeysOf(ks)
    ensures NoDuplicates(Merged(vs, ks).keys)
    ensures |Merged(vs, ks).keys| <= |vs| + |ks|
  {
    var all := KeysOf(vs) + KeysOf(ks);
    assert Merged(vs, ks).keys == Distinct(all) by {
      PutVectorsKeys(EmptyTable, vs);
      PutKeywordsKeys(PutVectors(EmptyTable, vs), ks);
      AppendNewAppend([], KeysOf(vs), KeysOf(ks));
    }
    AppendNewShape([], all);
  }

  // ---------------------------------------------------------------------
  // A reference for the records

  /** The last hit whose key is `k`. */
  function LastWith(hs: seq<Context>, k: string): (r: Option<Context>)
    ensures r.Some? <==> exists i :: 0 <= i < |hs| && Key(hs[i].text) == k
    ensures r.Some? ==> exists i :: 0 <= i < |hs| && hs[i] == r.value && Key(hs[i].text) == k
                                  && forall j :: i < j < |hs| ==> Key(hs[j].text) != k
  {
    if hs == [] then None
    else if Key(hs[|hs| - 1].text) == k then Some(hs[|hs| - 1])
    else
      var init := hs[..|hs| - 1];
      assert forall i :: 0 <= i < |init| ==> init[i] == hs[i];
      LastWith(init, k)
  }

  /** The first hit whose key is `k`. */
  function FirstWith(hs: seq<Context>, k: string): (r: Option<Context>)
    ensures r.Some? <==> exists i :: 0 <= i < |hs| && Key(hs[i].text) == k
    ensures r.Some? ==> exists i :: 0 <= i < |hs| && hs[i] == r.value && Key(hs[i].text) == k
                                  && forall j :: 0 <= j < i ==> Key(hs[j].text) != k
  {
    if hs == [] then None
    else
      var r := FirstWith(hs[..|hs| - 1], k);
      assert forall i :: 0 <= i < |hs| - 1 ==> hs[..|hs| - 1][i] == hs[i];
      if r.Some? then r
      else if Key(hs[|hs| - 1].text) == k then Some(hs[|hs| - 1])
      else None
  }

  /** The keyword score a key ends with: the last keyword hit's, or 0. */
  function KeywordScoreOf(ks: seq<Context>, k: string): real {
    match LastWith(ks, k)
    case Some(h) => h.score
    case None => 0.0
  }

  /**
   * The record the merge should hold for key `k`, read off the hit lists
   * directly: pdf, text and vector score of the last vector hit with that
   * key, or else pdf and text of the first keyword hit with vector score 0;
   * the keyword score of the last keyword hit, or 0.
   */
  function Expected(vs: seq<Context>, ks: seq<Context>, k: string): Option<Candidate> {
    match LastWith(vs, k)
    case Some(v) => Some(Candidate(v.pdf, v.text, v.score, KeywordScoreOf(ks, k)))
    case None =>
      match FirstWith(ks, k)
      case Some(f) => Some(Candidate(f.pdf, f.text, 0.0, KeywordScoreOf(ks, k)))
      case None => None
  }

  lemma {:induction false} PutVectorsEntries(vs: seq<Context>)
    ensures forall k :: k in PutVectors(EmptyTable, vs).entries <==> LastWith(vs, k).Some?
    ensures forall k :: k in PutVectors(EmptyTable, vs).entries ==>
              PutVectors(EmptyTable, vs).entries[k]
              == Candidate(LastWith(vs, k).value.pdf, LastWith(vs, k).value.text, LastWith(vs, k).value.score, 0.0)
  {
    if vs != [] {
      PutVectorsEntries(vs[..|vs| - 1]);
    }
  }

  /** What the keyword loop leaves for key `k`, starting from the records `t`. */
  function AfterKeywords(t: map<string, Candidate>, ks: seq<Context>, k: string): Option<Candidate> {
    if k in t then Some(t[k].(keywordScore := if LastWith(ks, k).Some? then LastWith(ks, k).value.score else t[k].keywordScore))
    else
      match FirstWith(ks, k)
      case Some(f) => Some(Candidate(f.pdf, f.text, 0.0, LastWith(ks, k).value.score))
      case None => None
  }

  lemma {:induction false} PutKeywordsEntries(t: Table, ks: seq<Context>)
    requires Valid(t)
    ensures forall k :: k in PutKeywords(t, ks).entries <==> AfterKeywords(t.entries, ks, k).Some?
    ensures forall k :: k in PutKeywords(t, ks).entries ==>
              PutKeywords(t, ks).entries[k] == AfterKeywords(t.entries, ks, k).value
  {
    if ks != [] {
      PutKeywordsEntries(t, ks[..|ks| - 1]);
      forall k
        ensures k in PutKeywords(t, ks).entries <==> AfterKeywords(t.entries, ks, k).Some?
        ensures k in PutKeywords(t, ks).entries ==>
                  PutKeywords(t, ks).entries[k] == AfterKeywords(t.entries, ks, k).value
      {
        PutKeywordAt(t, ks, k);
      }
    }
  }

  /** The step of `PutKeywordsEntries` for one key. */
  lemma PutKeywordAt(t: Table, ks: seq<Context>, k: string)
    requires Valid(t) && ks != []
    requires k in PutKeywords(t, ks[..|ks| - 1]).entries <==> AfterKeywords(t.entries, ks[..|ks| - 1], k).Some?
    requires k in PutKeywords(t, ks[..|ks| - 1]).entries ==>
               PutKeywords(t, ks[..|ks| - 1]).entries[k] == AfterKeywords(t.entries, ks[..|ks| - 1], k).value
    ensures k in PutKeywords(t, ks).entries <==> AfterKeywords(t.entries, ks, k).Some?
    ensures k in PutKeywords(t, ks).entries ==> PutKeywords(t, ks).entries[k] == AfterKeywords(t.entries, ks, k).value
  {
    var prefix := ks[..|ks| - 1];
    var h := ks[|ks| - 1];
    if Key(h.text) != k {
      assert LastWith(ks, k) == LastWith(prefix, k);
      assert FirstWith(ks, k) == FirstWith(prefix, k);
    } else {
      assert LastWith(ks, k) == Some(h);
    }
  }

  /**
   * Every key of the merge holds exactly the record `Expected` reads off
   * the hit lists, and every key `Expected` knows is in the merge: a
   * keyword hit on a key the vector hits already hold only sets its keyword
   * score, a keyword hit on a new key enters with vector score 0, and a
   * later hit with the same 100-character prefix as an earlier one lands on
   * the earlier one's record even when the texts differ.
   */
  lemma MergedEntries(vs: seq<Context>, ks: seq<Context>)
    ensures forall k :: k in Merged(vs, ks).entries <==> Expected(vs, ks, k).Some?
    ensures forall k :: k in Merged(vs, ks).entries ==> Merged(vs, ks).entries[k] == Expected(vs, ks, k).value
  {
    var t := PutVectors(EmptyTable, vs);
    PutVectorsEntries(vs);
    PutKeywordsEntries(t, ks);
    forall k
      ensures k in Merged(vs, ks).entries <==> Expected(vs, ks, k).Some?
      ensures k in Merged(vs, ks).entries ==> Merged(vs, ks).entries[k] == Expected(vs, ks, k).value
    {
      if LastWith(vs, k).None? && FirstWith(ks, k).Some? {
        assert LastWith(ks, k).Some?;
      }
    }
  }

  /** A candidate found only by the keyword search has vector score 0. */
  lemma KeywordOnlyHasNoVectorScore(vs: seq<Context>, ks: seq<Context>, k: string)
    requires k in Merged(vs, ks).entries
    requires forall i :: 0 <= i < |vs| ==> Key(vs[i].text) != k
    ensures Merged(vs, ks).entries[k].vectorScore == 0.0
  {
    MergedEntries(vs, ks);
  }
}
