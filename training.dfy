/**
 * The feature and label table that `train_learned_reranker` builds before
 * fitting its classifier, in scripts/learned_reranker.py and in the copy in
 * scripts/ask_api.py. For each bootstrap question both searches are asked
 * for 5 results, the hits are merged by text prefix, and each merged record
 * gives one feature row (vector score, keyword score) and one label.
 *
 * The two copies differ only in the label threshold: 0.4 in
 * scripts/learned_reranker.py, 0 in scripts/ask_api.py. It is a parameter
 * here. The fit itself is not modelled.
 */
module Training {
  import opened Wrappers
  import opened Retrievers
  import opened Candidates

  /** The eight questions the classifier is trained on. */
  const BootstrapQuestions: seq<string> := [
    "What are PPE safety requirements?",
    "How to safely operate a laser scanner?",
    "Define safety functions for machinery.",
    "Explain risk reduction steps for operators.",
    "What are type-C standards in ISO 13849-1?",
    "How to calculate performance level (PL) for a safety function?",
    "List hazards in industrial machinery.",
    "When should emergency stop be applied?"
  ]

  /** Results asked of each search per question. */
  const ResultsPerQuestion: int := 5

  /** The label threshold of scripts/learned_reranker.py. */
  const StandaloneThreshold: real := 0.4

  /** The label threshold of the copy in scripts/ask_api.py. */
  const ApiThreshold: real := 0.0

  /** One row of `features`: `[vector_score, keyword_score]`. */
  datatype Feature = Feature(vectorScore: real, keywordScore: real)

  datatype TrainingSet = TrainingSet(features: seq<Feature>, labels: seq<int>)

  /** `1 if v['vector_score'] > threshold else 0`. */
  function Label(vectorScore: real, threshold: real): (l: int)
    ensures l == 1 <==> vectorScore > threshold
    ensures l == 0 <==> vectorScore <= threshold
  {
    if vectorScore > threshold then 1 else 0
  }

  function FeaturesOf(cs: seq<Candidate>): (fs: seq<Feature>)
    ensures |fs| == |cs|
  {
    seq(|cs|, i requires 0 <= i < |cs| => Feature(cs[i].vectorScore, cs[i].keywordScore))
  }

  function LabelsOf(cs: seq<Candidate>, threshold: real): (ls: seq<int>)
    ensures |ls| == |cs|
  {
    seq(|cs|, i requires 0 <= i < |cs| => Label(cs[i].vectorScore, threshold))
  }

  /** The merged records of one question, in insertion order. */
  function QuestionCandidates(vs: seq<Context>, ks: seq<Context>): seq<Candidate> {
    Values(Merged(vs, ks))
  }

  /**
   * The table after the questions `qs`, with `baseline` and `keyword` the two
   * search functions; the first baseline failure ends the loop with its
   * error.
   */
  function TrainingTable(qs: seq<string>, baseline: (string, int) -> Result<seq<Context>, string>,
                 keyword: (string, int) -> seq<Context>, threshold: real): Result<TrainingSet, string>
  {
    if qs == [] then Ok(TrainingSet([], []))
    else
      match TrainingTable(qs[..|qs| - 1], baseline, keyword, threshold)
      case Err(e) => Err(e)
      case Ok(prev) =>
        var q := qs[|qs| - 1];
        match baseline(q, ResultsPerQuestion)
        case Err(e) => Err(e)
        case Ok(vs) =>
          var cs := QuestionCandidates(vs, keyword(q, ResultsPerQuestion));
          Ok(TrainingSet(prev.features + FeaturesOf(cs), prev.labels + LabelsOf(cs, threshold)))
  }

  /** Lines 26-48 of scripts/learned_reranker.py (137-153 of scripts/ask_api.py). */
  method BuildTable(qs: seq<string>, baseline: (string, int) -> Result<seq<Context>, string>,
                    keyword: (string, int) -> seq<Context>, threshold: real)
    returns (r: Result<TrainingSet, string>)
    ensures r == TrainingTable(qs, baseline, keyword, threshold)
  {
    var features: seq<Feature> := [];
    var labels: seq<int> := [];
    var n := 0;
    while n < |qs|
      invariant 0 <= n <= |qs|
      invariant TrainingTable(qs[..n], baseline, keyword, threshold) == Ok(TrainingSet(features, labels))
    {
      var q := qs[n];
      assert qs[..n + 1][..n] == qs[..n];
      var baselineResults := baseline(q, ResultsPerQuestion);
      if baselineResults.Err? {
        assert TrainingTable(qs[..n + 1], baseline, keyword, threshold).Err?;
        PrefixErrorPersists(qs, n + 1, baseline, keyword, threshold);
        assert qs[..|qs|] == qs;
        return Err(baselineResults.error);
      }
      var keywordResults := keyword(q, ResultsPerQuestion);
      var combined := MergeHits(baselineResults.value, keywordResults);
      features, labels := AppendRows(features, labels, Values(combined), threshold);
      n := n + 1;
    }
    assert qs[..|qs|] == qs;
    r := Ok(TrainingSet(features, labels));
  }

  /** Lines 45-48 of scripts/learned_reranker.py: one row and one label per merged record. */
  method AppendRows(features0: seq<Feature>, labels0: seq<int>, values: seq<Candidate>, threshold: real)
    returns (features: seq<Feature>, labels: seq<int>)
    ensures features == features0 + FeaturesOf(values)
    ensures labels == labels0 + LabelsOf(values, threshold)
  {
    features, labels := features0, labels0;
    var i := 0;
    while i < |values|
      invariant 0 <= i <= |values|
      invariant features == features0 + FeaturesOf(values)[..i]
      invariant labels == labels0 + LabelsOf(values, threshold)[..i]
    {
      features := features + [Feature(values[i].vectorScore, values[i].keywordScore)];
      labels := labels + [if values[i].vectorScore > threshold then 1 else 0];
      assert FeaturesOf(values)[..i + 1] == FeaturesOf(values)[..i] + [FeaturesOf(values)[i]];
      assert LabelsOf(values, threshold)[..i + 1] == LabelsOf(values, threshold)[..i] + [LabelsOf(values, threshold)[i]];
      i := i + 1;
    }
    assert FeaturesOf(values)[..i] == FeaturesOf(values);
    assert LabelsOf(values, threshold)[..i] == LabelsOf(values, threshold);
  }

  /** Once a question's search fails, the whole table fails with that error. */
  lemma {:induction false} PrefixErrorPersists(qs: seq<string>, n: nat,
      baseline: (string, int) -> Result<seq<Context>, string>, keyword: (string, int) -> seq<Context>, threshold: real)
    requires n <= |qs| && TrainingTable(qs[..n], baseline, keyword, threshold).Err?
    ensures TrainingTable(qs, baseline, keyword, threshold) == TrainingTable(qs[..n], baseline, keyword, threshold)
    decreases |qs| - n
  {
    if n < |qs| {
      assert qs[..n + 1][..n] == qs[..n];
      PrefixErrorPersists(qs, n + 1, baseline, keyword, threshold);
    } else {
      assert qs[..n] == qs;
    }
  }

  /**
   * Features and labels grow together, so they always have equal length;
   * each label is 1 exactly when its row's vector score exceeds the
   * threshold, and 0 otherwise.
   */
  lemma {:induction false} TableRows(qs: seq<string>, baseline: (string, int) -> Result<seq<Context>, string>,
                                     keyword: (string, int) -> seq<Context>, threshold: real)
    requires TrainingTable(qs, baseline, keyword, threshold).Ok?
    ensures |TrainingTable(qs, baseline, keyword, threshold).value.features| == |TrainingTable(qs, baseline, keyword, threshold).value.labels|
    ensures forall i :: 0 <= i < |TrainingTable(qs, baseline, keyword, threshold).value.labels| ==>
              && (TrainingTable(qs, baseline, keyword, threshold).value.labels[i] == 1
                  <==> TrainingTable(qs, baseline, keyword, threshold).value.features[i].vectorScore > threshold)
              && (TrainingTable(qs, baseline, keyword, threshold).value.labels[i] == 0
                  <==> TrainingTable(qs, baseline, keyword, threshold).value.features[i].vectorScore <= threshold)
  {
    if qs != [] {
      TableRows(qs[..|qs| - 1], baseline, keyword, threshold);
      var prev := TrainingTable(qs[..|qs| - 1], baseline, keyword, threshold).value;
      var q := qs[|qs| - 1];
      var cs := QuestionCandidates(baseline(q, ResultsPerQuestion).value, keyword(q, ResultsPerQuestion));
      var t := TrainingTable(qs, baseline, keyword, threshold).value;
      assert t.features == prev.features + FeaturesOf(cs);
      assert t.labels == prev.labels + LabelsOf(cs, threshold);
      LabelsOfMatch(cs, threshold);
      LabelledAppend(prev.features, prev.labels, FeaturesOf(cs), LabelsOf(cs, threshold), threshold);
    }
  }

  /** Row by row, label 1 goes with a vector score above the threshold and label 0 with one at or below it. */
  predicate Labelled(fs: seq<Feature>, ls: seq<int>, threshold: real) {
    && |fs| == |ls|
    && forall i :: 0 <= i < |ls| ==>
         && (ls[i] == 1 <==> fs[i].vectorScore > threshold)
         && (ls[i] == 0 <==> fs[i].vectorScore <= threshold)
  }

  /** The rows of one question are labelled by their own vector scores. */
  lemma LabelsOfMatch(cs: seq<Candidate>, threshold: real)
    ensures Labelled(FeaturesOf(cs), LabelsOf(cs, threshold), threshold)
  {
    forall i | 0 <= i < |cs|
      ensures && (LabelsOf(cs, threshold)[i] == 1 <==> FeaturesOf(cs)[i].vectorScore > threshold)
              && (LabelsOf(cs, threshold)[i] == 0 <==> FeaturesOf(cs)[i].vectorScore <= threshold)
    {
      assert LabelsOf(cs, threshold)[i] == Label(cs[i].vectorScore, threshold);
    }
  }

  /** Appending labelled rows to labelled rows keeps them labelled. */
  lemma LabelledAppend(fs: seq<Feature>, ls: seq<int>, gs: seq<Feature>, ms: seq<int>, threshold: real)
    requires Labelled(fs, ls, threshold) && Labelled(gs, ms, threshold)
    ensures Labelled(fs + gs, ls + ms, threshold)
  {
    forall i | 0 <= i < |ls + ms|
      ensures && ((ls + ms)[i] == 1 <==> (fs + gs)[i].vectorScore > threshold)
              && ((ls + ms)[i] == 0 <==> (fs + gs)[i].vectorScore <= threshold)
    {
      if i >= |ls| {
        assert (ls + ms)[i] == ms[i - |ls|] && (fs + gs)[i] == gs[i - |ls|];
      }
    }
  }

  /** The table fails exactly when the baseline search fails for some question. */
  lemma {:induction false} TableFailsIff(qs: seq<string>, baseline: (string, int) -> Result<seq<Context>, string>,
                                         keyword: (string, int) -> seq<Context>, threshold: real)
    ensures TrainingTable(qs, baseline, keyword, threshold).Err?
            <==> exists i :: 0 <= i < |qs| && baseline(qs[i], ResultsPerQuestion).Err?
  {
    if qs != [] {
      TableFailsIff(qs[..|qs| - 1], baseline, keyword, threshold);
      assert forall i :: 0 <= i < |qs| - 1 ==> qs[..|qs| - 1][i] == qs[i];
    }
  }

  /** How many distinct text prefixes the two searches find for each question, added up. */
  function KeyCount(qs: seq<string>, baseline: (string, int) -> Result<seq<Context>, string>,
                    keyword: (string, int) -> seq<Context>): nat
  {
    if qs == [] then 0
    else
      var q := qs[|qs| - 1];
      KeyCount(qs[..|qs| - 1], baseline, keyword)
      + match baseline(q, ResultsPerQuestion)
        case Ok(vs) => |Distinct(KeysOf(vs) + KeysOf(keyword(q, ResultsPerQuestion)))|
        case Err(_) => 0
  }

  /** Each question contributes one row per distinct 100-character prefix among its hits. */
  lemma {:induction false} TableSize(qs: seq<string>, baseline: (string, int) -> Result<seq<Context>, string>,
                                     keyword: (string, int) -> seq<Context>, threshold: real)
    requires TrainingTable(qs, baseline, keyword, threshold).Ok?
    ensures |TrainingTable(qs, baseline, keyword, threshold).value.features| == KeyCount(qs, baseline, keyword)
  {
    if qs != [] {
      TableSize(qs[..|qs| - 1], baseline, keyword, threshold);
      var q := qs[|qs| - 1];
      MergedKeys(baseline(q, ResultsPerQuestion).value, keyword(q, ResultsPerQuestion));
    }
  }

  /**
   * A record found only by the keyword search has vector score 0, so with a
   * non-negative threshold (both copies use one) its label is 0.
   */
  lemma KeywordOnlyLabelledIrrelevant(vs: seq<Context>, ks: seq<Context>, threshold: real, i: nat)
    requires threshold >= 0.0
    requires i < |QuestionCandidates(vs, ks)|
    requires forall j :: 0 <= j < |vs| ==> Key(vs[j].text) != Merged(vs, ks).keys[i]
    ensures QuestionCandidates(vs, ks)[i].vectorScore == 0.0
    ensures LabelsOf(QuestionCandidates(vs, ks), threshold)[i] == 0
  {
    KeywordOnlyHasNoVectorScore(vs, ks, Merged(vs, ks).keys[i]);
  }

  /** The threshold only sets the labels: the same questions fail, and otherwise give the same rows. */
  lemma {:induction false} FeaturesIgnoreThreshold(qs: seq<string>, baseline: (string, int) -> Result<seq<Context>, string>,
                                                   keyword: (string, int) -> seq<Context>, t1: real, t2: real)
    ensures TrainingTable(qs, baseline, keyword, t1).Ok? == TrainingTable(qs, baseline, keyword, t2).Ok?
    ensures TrainingTable(qs, baseline, keyword, t1).Ok? ==>
              TrainingTable(qs, baseline, keyword, t1).value.features == TrainingTable(qs, baseline, keyword, t2).value.features
  {
    if qs != [] {
      FeaturesIgnoreThreshold(qs[..|qs| - 1], baseline, keyword, t1, t2);
    }
  }

  /**
   * The two copies of the training code build the same rows and label them
   * differently: a row is labelled 1 by the copy in scripts/ask_api.py and 0
   * by scripts/learned_reranker.py exactly when its vector score lies in
   * (0, 0.4]; no row is labelled 1 by the standalone copy and 0 by the other.
   */
  lemma ThresholdsDisagree(qs: seq<string>, baseline: (string, int) -> Result<seq<Context>, string>,
                           keyword: (string, int) -> seq<Context>)
    requires TrainingTable(qs, baseline, keyword, StandaloneThreshold).Ok?
    ensures TrainingTable(qs, baseline, keyword, ApiThreshold).Ok?
    ensures TrainingTable(qs, baseline, keyword, ApiThreshold).value.features
            == TrainingTable(qs, baseline, keyword, StandaloneThreshold).value.features
    ensures |TrainingTable(qs, baseline, keyword, StandaloneThreshold).value.labels|
            == |TrainingTable(qs, baseline, keyword, StandaloneThreshold).value.features|
            == |TrainingTable(qs, baseline, keyword, ApiThreshold).value.labels|
    ensures forall i :: 0 <= i < |TrainingTable(qs, baseline, keyword, StandaloneThreshold).value.labels| ==>
              && TrainingTable(qs, baseline, keyword, StandaloneThreshold).value.labels[i]
                 <= TrainingTable(qs, baseline, keyword, ApiThreshold).value.labels[i]
              && (TrainingTable(qs, baseline, keyword, StandaloneThreshold).value.labels[i]
                  != TrainingTable(qs, baseline, keyword, ApiThreshold).value.labels[i]
                  <==> 0.0 < TrainingTable(qs, baseline, keyword, StandaloneThreshold).value.features[i].vectorScore <= 0.4)
  {
    FeaturesIgnoreThreshold(qs, baseline, keyword, StandaloneThreshold, ApiThreshold);
    TableRows(qs, baseline, keyword, StandaloneThreshold);
    TableRows(qs, baseline, keyword, ApiThreshold);
  }
}
