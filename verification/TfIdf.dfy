/**
 TF-IDF of backend/app/nlp/core.py. A document is its list of tokens; stop words and single letters are
 already gone. The logarithm is an input that is strictly increasing and zero at one.
 */
module TfIdf {
  import opened Cosine

  ghost predicate IsLog(log: real -> real) {
    log(1.0) == 0.0 && forall x, y :: 0.0 < x < y ==> log(x) < log(y)
  }

  // The number of documents, among the first `n`, that contain the term.
  ghost function DocumentFrequency(docs: seq<seq<string>>, n: nat, term: string): nat
    requires n <= |docs|
  {
    if n == 0 then 0
    else DocumentFrequency(docs, n - 1, term) + if term in docs[n - 1] then 1 else 0
  }

  function Idf(log: real -> real, n: nat, df: nat): real {
    log(n as real / (df + 1) as real)
  }

  ghost function Weight(log: real -> real, docs: seq<seq<string>>, doc: seq<string>, term: string): real
    requires doc != []
  {
    Mul(multiset(doc)[term] as real / |doc| as real,
        Idf(log, |docs|, DocumentFrequency(docs, |docs|, term)))
  }

  ghost function VectorOf(log: real -> real, docs: seq<seq<string>>, doc: seq<string>): Vector {
    map term | term in doc :: Weight(log, docs, doc, term)
  }

  // dict.get(term, 0)
  function Counted(counts: map<string, nat>, term: string): nat {
    if term in counts then counts[term] else 0
  }

  /** `build_freq_map`: how often each token occurs. */
  method BuildFreqMap(tokens: seq<string>) returns (freq: map<string, nat>)
    ensures forall t :: t in freq <==> t in tokens
    ensures forall t :: t in freq ==> freq[t] == multiset(tokens)[t]
  {
    freq := map[];
    for i := 0 to |tokens|
      invariant forall t :: t in freq <==> t in tokens[..i]
      invariant forall t :: t in freq ==> freq[t] == multiset(tokens[..i])[t]
    {
      assert tokens[..i + 1] == tokens[..i] + [tokens[i]];
      freq := freq[tokens[i] := Counted(freq, tokens[i]) + 1];
    }
    assert tokens[..|tokens|] == tokens;
  }

  method CountDocuments(docs: seq<seq<string>>) returns (df: map<string, nat>)
    ensures forall t :: Counted(df, t) == DocumentFrequency(docs, |docs|, t)
  {
    df := map[];
    for i := 0 to |docs|
      invariant forall t :: Counted(df, t) == DocumentFrequency(docs, i, t)
    {
      var terms := set t | t in docs[i];
      while terms != {}
        invariant forall t :: t in terms ==> t in docs[i]
        invariant forall t :: Counted(df, t) == DocumentFrequency(docs, if t in terms then i else i + 1, t)
        decreases terms
      {
        var t :| t in terms;
        df := df[t := Counted(df, t) + 1];
        terms := terms - {t};
      }
    }
  }

  /** `tfidf_vectors` */
  method TfIdfVectors(log: real -> real, docs: seq<seq<string>>) returns (vectors: seq<Vector>)
    ensures |vectors| == |docs|
    ensures forall d :: 0 <= d < |docs| ==> vectors[d] == VectorOf(log, docs, docs[d])
  {
    vectors := [];
    var df := CountDocuments(docs);
    for d := 0 to |docs|
      invariant |vectors| == d
      invariant forall e :: 0 <= e < d ==> vectors[e] == VectorOf(log, docs, docs[e])
    {
      var tokens := docs[d];
      if tokens == [] {
        assert VectorOf(log, docs, tokens) == map[];
        vectors := vectors + [map[]];
        continue;
      }
      var vec := WeighTerms(log, docs, df, tokens);
      vectors := vectors + [vec];
    }
  }

  // One document's vector, term by term.
  method WeighTerms(log: real -> real, docs: seq<seq<string>>, df: map<string, nat>, tokens: seq<string>)
      returns (vec: Vector)
    requires tokens != []
    requires forall t :: Counted(df, t) == DocumentFrequency(docs, |docs|, t)
    ensures vec == VectorOf(log, docs, tokens)
  {
    var freq := BuildFreqMap(tokens);
    vec := map[];
    var terms := set t | t in tokens;
    while terms != {}
      invariant forall t :: t in tokens <==> t in terms || t in vec
      invariant forall t :: t in vec ==> vec[t] == Weight(log, docs, tokens, t)
      decreases terms
    {
      var t :| t in terms;
      var tf := freq[t] as real / |tokens| as real;
      vec := vec[t := Mul(tf, Idf(log, |docs|, Counted(df, t)))];
      terms := terms - {t};
    }
  }

  // ----- Signs -----

  lemma IdfIsZero(log: real -> real, n: nat, df: nat)
    requires IsLog(log) && n > 0
    ensures Idf(log, n, df) == 0.0 <==> n == df + 1
  {
    var x := n as real / (df + 1) as real;
    assert x > 0.0;
    if n == df + 1 {
      assert x == 1.0;
    } else if n < df + 1 {
      assert x < 1.0;
    } else {
      assert 1.0 < x;
    }
  }

  lemma TermFrequencyIsPositive(doc: seq<string>, term: string)
    requires term in doc
    ensures multiset(doc)[term] as real / |doc| as real > 0.0
  {
    assert term in multiset(doc);
  }

  // The product of two weights of one term: positive, unless the term's idf vanishes.
  lemma WeightsOfOneTerm(log: real -> real, docs: seq<seq<string>>, a: seq<string>, b: seq<string>, term: string)
    requires IsLog(log) && docs != [] && term in a && term in b
    ensures var p := Mul(Weight(log, docs, a, term), Weight(log, docs, b, term));
      && p >= 0.0
      && (p == 0.0 <==> |docs| == DocumentFrequency(docs, |docs|, term) + 1)
  {
    var df := DocumentFrequency(docs, |docs|, term);
    var x, y := multiset(a)[term] as real / |a| as real, multiset(b)[term] as real / |b| as real;
    var idf := Idf(log, |docs|, df);
    IdfIsZero(log, |docs|, df);
    TermFrequencyIsPositive(a, term);
    TermFrequencyIsPositive(b, term);
    hide Mul;
    SquareOfScaled(x, y, idf);
  }

  lemma SquareOfScaled(x: real, y: real, c: real)
    requires x > 0.0 && y > 0.0
    ensures Mul(Mul(x, c), Mul(y, c)) >= 0.0
    ensures Mul(Mul(x, c), Mul(y, c)) == 0.0 <==> c == 0.0
  {
    hide Mul;
    MulReorders(x, c, Mul(y, c));
    MulReorders(c, y, c);
    MulReorders(c, Mul(y, c), 0.0);
    MulReorders(y, c, c);
    Square(c);
    MulSign(y, Mul(c, c));
    MulSign(x, Mul(y, Mul(c, c)));
    MulAdds(y, 0.0, 0.0);
    MulAdds(x, 0.0, 0.0);
  }

  lemma VectorsAreAligned(log: real -> real, docs: seq<seq<string>>, a: seq<string>, b: seq<string>)
    requires IsLog(log) && docs != []
    ensures Aligned(VectorOf(log, docs, a), VectorOf(log, docs, b))
  {
    hide Mul, Weight;
    var u, w := VectorOf(log, docs, a), VectorOf(log, docs, b);
    forall t | t in Shared(u, w)
      ensures Mul(At(u, t), At(w, t)) >= 0.0
    {
      WeightsOfOneTerm(log, docs, a, b, t);
    }
  }

  /**
   Any two vectors of one corpus: the similarity is in [0, 1] although an idf can be negative, and it is
   positive exactly when the documents share a term that is not in all other documents but one.
   */
  lemma CorpusSimilarity(log: real -> real, sqrt: real -> real, docs: seq<seq<string>>, i: nat, j: nat)
    requires IsLog(log) && IsSqrt(sqrt) && i < |docs| && j < |docs|
    ensures var c := Similarity(sqrt, VectorOf(log, docs, docs[i]), VectorOf(log, docs, docs[j]));
      && 0.0 <= c <= 1.0
      && (c > 0.0 <==> exists t :: t in docs[i] && t in docs[j] && DocumentFrequency(docs, |docs|, t) + 1 != |docs|)
  {
    hide Mul, Weight, Similarity;
    var u, w := VectorOf(log, docs, docs[i]), VectorOf(log, docs, docs[j]);
    VectorsAreAligned(log, docs, docs[i], docs[j]);
    CosineOfAligned(sqrt, u, w);
    forall t | t in Shared(u, w)
      ensures Mul(At(u, t), At(w, t)) != 0.0 <==> DocumentFrequency(docs, |docs|, t) + 1 != |docs|
    {
      WeightsOfOneTerm(log, docs, docs[i], docs[j], t);
    }
    if Similarity(sqrt, u, w) > 0.0 {
      var t :| t in Shared(u, w) && Mul(At(u, t), At(w, t)) != 0.0;
      assert t in docs[i] && t in docs[j];
    }
    if t :| t in docs[i] && t in docs[j] && DocumentFrequency(docs, |docs|, t) + 1 != |docs| {
      assert t in Shared(u, w);
    }
  }

  // ----- Two texts -----

  /** `compute_tfidf_similarity`, on the tokens of two texts. */
  ghost function TextSimilarity(log: real -> real, sqrt: real -> real, a: seq<string>, b: seq<string>): real {
    Similarity(sqrt, VectorOf(log, [a, b], a), VectorOf(log, [a, b], b))
  }

  // In both texts each token has the same share of the occurrences of shared tokens.
  ghost predicate SameProportions(a: seq<string>, b: seq<string>) {
    forall s, t :: s in a && s in b && t in a && t in b ==>
      multiset(a)[s] * multiset(b)[t] == multiset(a)[t] * multiset(b)[s]
  }

  lemma FrequencyInTwo(a: seq<string>, b: seq<string>, t: string)
    ensures DocumentFrequency([a, b], 2, t) == (if t in a then 1 else 0) + (if t in b then 1 else 0)
  {
    assert DocumentFrequency([a, b], 1, t) == if t in a then 1 else 0;
  }

  lemma UnsharedTermWeighsNothing(log: real -> real, a: seq<string>, b: seq<string>, doc: seq<string>, t: string)
    requires IsLog(log) && t in doc && (doc == a || doc == b) && !(t in a && t in b)
    ensures Weight(log, [a, b], doc, t) == 0.0
  {
    FrequencyInTwo(a, b, t);
    IdfIsZero(log, 2, 1);
    MulAdds(multiset(doc)[t] as real / |doc| as real, 0.0, 0.0);
  }

  lemma WeightOfShared(log: real -> real, a: seq<string>, b: seq<string>, doc: seq<string>, t: string)
    requires IsLog(log) && t in a && t in b && (doc == a || doc == b)
    ensures Weight(log, [a, b], doc, t) == Mul(multiset(doc)[t] as real, Idf(log, 2, 2) / |doc| as real)
    ensures Idf(log, 2, 2) / |doc| as real != 0.0
  {
    FrequencyInTwo(a, b, t);
    IdfIsZero(log, 2, 2);
    var n, m, c := |doc| as real, multiset(doc)[t] as real, Idf(log, 2, 2);
    SwapDivision(m, c, n);
  }

  lemma SwapDivision(m: real, c: real, n: real)
    requires n > 0.0
    ensures Mul(m / n, c) == Mul(m, c / n)
    ensures c != 0.0 ==> c / n != 0.0
  {
    assert m / n * c == m * c / n;
    assert c / n * n == c;
  }

  lemma ScaledCounts(p: nat, q: nat, r: nat, s: nat, c: real, d: real)
    requires c != 0.0 && d != 0.0
    ensures Mul(Mul(p as real, c), Mul(q as real, d)) == Mul(Mul(r as real, c), Mul(s as real, d))
      <==> p * q == r * s
  {
    var cd := Mul(c, d);
    MulSign(c, d);
    PullOut(p as real, q as real, c, d);
    PullOut(r as real, s as real, c, d);
    assert Mul(p as real, q as real) == (p * q) as real && Mul(r as real, s as real) == (r * s) as real;
    if Mul(cd, (p * q) as real) == Mul(cd, (r * s) as real) {
      Cancel(cd, (p * q) as real, (r * s) as real);
    }
  }

  lemma PullOut(p: real, q: real, c: real, d: real)
    ensures Mul(Mul(p, c), Mul(q, d)) == Mul(Mul(c, d), Mul(p, q))
  {
    hide Mul;
    MulReorders(p, c, Mul(q, d));
    MulReorders(c, q, d);
    MulReorders(c, Mul(q, d), 0.0);
    MulReorders(q, d, c);
    MulReorders(q, Mul(d, c), 0.0);
    MulReorders(c, d, 0.0);
    MulReorders(p, q, Mul(c, d));
    MulReorders(Mul(p, q), Mul(c, d), 0.0);
  }

  /** Two texts are similar to a positive degree exactly when they share a token. */
  lemma PositiveIffTokenShared(log: real -> real, sqrt: real -> real, a: seq<string>, b: seq<string>)
    requires IsLog(log) && IsSqrt(sqrt)
    ensures TextSimilarity(log, sqrt, a, b) > 0.0 <==> exists t :: t in a && t in b
  {
    hide Similarity, VectorOf;
    CorpusSimilarity(log, sqrt, [a, b], 0, 1);
    forall t | t in a && t in b
      ensures DocumentFrequency([a, b], 2, t) + 1 != 2
    {
      FrequencyInTwo(a, b, t);
    }
  }

  /** They are wholly similar exactly when they share a token and use the shared tokens in the same proportions. */
  lemma WhollySimilarIff(log: real -> real, sqrt: real -> real, a: seq<string>, b: seq<string>)
    requires IsLog(log) && IsSqrt(sqrt)
    ensures TextSimilarity(log, sqrt, a, b) == 1.0 <==> (exists t :: t in a && t in b) && SameProportions(a, b)
  {
    hide Mul, Weight, Similarity;
    var u, w := VectorOf(log, [a, b], a), VectorOf(log, [a, b], b);
    PositiveIffTokenShared(log, sqrt, a, b);
    VectorsAreAligned(log, [a, b], a, b);
    CosineOfAligned(sqrt, u, w);
    forall t | t in u && t !in w
      ensures At(u, t) == 0.0
    {
      UnsharedTermWeighsNothing(log, a, b, a, t);
    }
    forall t | t in w && t !in u
      ensures At(w, t) == 0.0
    {
      UnsharedTermWeighsNothing(log, a, b, b, t);
    }
    ProportionalIffSameProportions(log, a, b);
  }

  lemma ProportionalIffSameProportions(log: real -> real, a: seq<string>, b: seq<string>)
    requires IsLog(log)
    ensures var u, w := VectorOf(log, [a, b], a), VectorOf(log, [a, b], b);
      Proportional(u, w, Shared(u, w)) <==> SameProportions(a, b)
  {
    hide Mul, Weight;
    var u, w := VectorOf(log, [a, b], a), VectorOf(log, [a, b], b);
    forall s, t | s in Shared(u, w) && t in Shared(u, w)
      ensures Mul(At(u, s), At(w, t)) == Mul(At(u, t), At(w, s)) <==>
        multiset(a)[s] * multiset(b)[t] == multiset(a)[t] * multiset(b)[s]
    {
      WeightOfShared(log, a, b, a, s);
      WeightOfShared(log, a, b, a, t);
      WeightOfShared(log, a, b, b, s);
      WeightOfShared(log, a, b, b, t);
      ScaledCounts(multiset(a)[s], multiset(b)[t], multiset(a)[t], multiset(b)[s],
        Idf(log, 2, 2) / |a| as real, Idf(log, 2, 2) / |b| as real);
    }
    assert forall t :: t in Shared(u, w) <==> t in a && t in b;
  }

  /** In particular for texts with the same tokens, and for texts that share one token only. */
  lemma WhollySimilarCases(log: real -> real, sqrt: real -> real, a: seq<string>, b: seq<string>)
    requires IsLog(log) && IsSqrt(sqrt)
    requires (a != [] && multiset(a) == multiset(b)) || exists t :: t in a && t in b && forall s :: s in a && s in b ==> s == t
    ensures TextSimilarity(log, sqrt, a, b) == 1.0
  {
    hide TextSimilarity;
    WhollySimilarIff(log, sqrt, a, b);
    if a != [] && multiset(a) == multiset(b) {
      assert a[0] in multiset(b);
      assert a[0] in a && a[0] in b;
    }
  }

  // ----- The weights themselves -----

  lemma {:induction false} DocumentFrequencyCounts(docs: seq<seq<string>>, n: nat, term: string)
    requires n <= |docs|
    ensures DocumentFrequency(docs, n, term) == |set i | 0 <= i < n && term in docs[i]|
  {
    if n > 0 {
      DocumentFrequencyCounts(docs, n - 1, term);
      var before, after := set i | 0 <= i < n - 1 && term in docs[i], set i | 0 <= i < n && term in docs[i];
      assert after == before + if term in docs[n - 1] then {n - 1} else {};
    }
  }

  /** Each term of a document weighs its share of the tokens times the logarithm of N / (df + 1). */
  lemma WeightsAre(log: real -> real, docs: seq<seq<string>>, doc: seq<string>, term: string)
    ensures term in VectorOf(log, docs, doc) <==> term in doc
    ensures term in doc ==>
      var df := |set i | 0 <= i < |docs| && term in docs[i]|;
      VectorOf(log, docs, doc)[term]
        == multiset(doc)[term] as real / |doc| as real * log(|docs| as real / (df + 1) as real)
  {
    DocumentFrequencyCounts(docs, |docs|, term);
  }
}
