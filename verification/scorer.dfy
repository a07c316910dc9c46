/**
  The integer skeleton of `tf` and `idf`, and the per-document query
  score the search handler accumulates.

  The source computes in `f32` and takes `log10`; the model keeps the
  two quotients exact (`Ratio`) and takes `log10` as a parameter, so a
  score is an exact real built from the source's integers.
*/
module Scorer {
  import opened Wrappers
  import opened CharClasses
  import opened Lexer
  import opened Indexer

  /** One entry of the `TFIndex` map, in its enumeration order. */
  datatype Entry = Entry(path: string, doc: TermFreq)

  type Index = seq<Entry>

  /** An unevaluated quotient `num / den` of two counts. */
  datatype Ratio = Ratio(num: nat, den: nat)

  /** The numerator of `tf`: the stored count, or 0 when the term is absent. */
  function StoredCount(term: string, doc: TermFreq): (n: nat)
    ensures term in doc ==> n == doc[term]
    ensures term !in doc ==> n == 0
    ensures n <= Total(doc)
  {
    if term in doc then
      CountBelowTotal(doc, term);
      doc[term]
    else
      0
  }

  /** The denominator of `tf`: `document.iter().map(..).sum()`, a walk over
      the table's entries in whatever order the map yields them. */
  method SumCounts(doc: TermFreq) returns (s: nat)
    ensures s == Total(doc)
  {
    s := 0;
    var left := doc;
    while left != map[]
      invariant s + Total(left) == Total(doc)
      decreases |left|
    {
      var t :| t in left;
      TotalRemove(left, t);
      s := s + left[t];
      left := left - {t};
    }
  }

  /** `tf(term, document)` before the division: the term's count over the
      document's total.  It never exceeds 1, and it is the undefined 0/0
      exactly when the document holds no counts; the source does not
      guard that case. */
  ghost function Tf(term: string, doc: TermFreq): (r: Ratio)
    ensures r.den == Total(doc)
    ensures term in doc ==> r.num == doc[term]
    ensures term !in doc ==> r.num == 0
    ensures r.num <= r.den
    ensures r.num == 0 && r.den == 0 <==> Total(doc) == 0
  {
    Ratio(StoredCount(term, doc), Total(doc))
  }

  /** `tf` as the source evaluates it, summing the counts on each call. */
  method ComputeTf(term: string, doc: TermFreq) returns (r: Ratio)
    ensures r == Tf(term, doc)
  {
    var total := SumCounts(doc);
    r := Ratio(StoredCount(term, doc), total);
  }

  /** The positions of the documents whose table contains `term`. */
  ghost function Containing(term: string, index: Index): set<nat> {
    set i: nat | i < |index| && term in index[i].doc
  }

  /** The `filter(..).count()` of `idf`: the number of documents whose
      table contains `term`, counted from the front of the enumeration. */
  function DocumentFrequency(term: string, index: Index): (d: nat)
    ensures d == |Containing(term, index)|
    ensures d <= |index|
    ensures d == 0 <==> forall i | 0 <= i < |index| :: term !in index[i].doc
    ensures d == |index| <==> forall i | 0 <= i < |index| :: term in index[i].doc
    decreases |index|
  {
    if index == [] then 0
    else
      ContainingSnoc(term, index);
      DocumentFrequency(term, index[..|index| - 1])
        + (if term in index[|index| - 1].doc then 1 else 0)
  }

  /** One more document adds its position to the set exactly when it
      contains the term. */
  lemma ContainingSnoc(term: string, index: Index)
    requires index != []
    ensures |index| - 1 !in Containing(term, index[..|index| - 1])
    ensures Containing(term, index)
         == Containing(term, index[..|index| - 1])
            + (if term in index[|index| - 1].doc then {|index| - 1} else {})
  {
  }

  /** `idf(term, index)` before `log10`: the number of documents over
      `max(1, document frequency)`.  The divisor lies in `[1, max(1, N)]`;
      a term in every document of a non-empty index gives N/N (log 0), and
      a term in no document falls back to N/1. */
  function Idf(term: string, index: Index): (r: Ratio)
    ensures r.num == |index|
    ensures r.den == if |Containing(term, index)| > 1 then |Containing(term, index)| else 1
    ensures 1 <= r.den <= if |index| > 1 then |index| else 1
    ensures (forall i | 0 <= i < |index| :: term in index[i].doc) && |index| > 0 ==> r.den == r.num
    ensures (forall i | 0 <= i < |index| :: term !in index[i].doc) ==> r.den == 1
  {
    var d := DocumentFrequency(term, index);
    Ratio(|index|, if d > 1 then d else 1)
  }

  /** A term found in at most the documents another term is found in has
      at most that term's document frequency. */
  lemma {:induction false} DocumentFrequencyMonotone(rare: string, common: string, index: Index)
    requires forall i | 0 <= i < |index| :: rare in index[i].doc ==> common in index[i].doc
    ensures DocumentFrequency(rare, index) <= DocumentFrequency(common, index)
    decreases |index|
  {
    if index != [] {
      DocumentFrequencyMonotone(rare, common, index[..|index| - 1]);
    }
  }

  /** IDF falls as more documents contain the term: a term contained in
      at most as many documents as another has an idf quotient at least as
      large (cross-multiplied, as both denominators are positive). */
  lemma IdfAntitone(rare: string, common: string, index: Index)
    requires DocumentFrequency(rare, index) <= DocumentFrequency(common, index)
    ensures Idf(common, index).num * Idf(rare, index).den
         <= Idf(rare, index).num * Idf(common, index).den
  {
    MultiplyMonotone(|index|, Idf(rare, index).den, Idf(common, index).den);
  }

  /** The case of nested document sets. */
  lemma IdfAntitoneNested(rare: string, common: string, index: Index)
    requires forall i | 0 <= i < |index| :: rare in index[i].doc ==> common in index[i].doc
    ensures Idf(common, index).num * Idf(rare, index).den
         <= Idf(rare, index).num * Idf(common, index).den
  {
    DocumentFrequencyMonotone(rare, common, index);
    IdfAntitone(rare, common, index);
  }

  lemma MultiplyMonotone(n: nat, a: nat, b: nat)
    requires a <= b
    ensures n * a <= n * b
  {
  }

  /** `tf * idf` for one term, with `log10` applied to the idf quotient.
      `None` stands for the NaN that `0.0 / 0.0` produces in `f32`. */
  function Weight(tf: Ratio, idf: Ratio, log10: real -> real): (w: Option<real>)
    requires idf.den > 0
    ensures w.None? <==> tf.den == 0
    ensures tf.den > 0 && tf.num == 0 ==> w == Some(0.0)
  {
    if tf.den == 0 then None
    else Some((tf.num as real / tf.den as real) * log10(idf.num as real / idf.den as real))
  }

  /** `f32` addition with NaN absorbing. */
  function Add(a: Option<real>, b: Option<real>): (s: Option<real>)
    ensures s.Some? <==> a.Some? && b.Some?
    ensures s.Some? ==> s.value == a.value + b.value
  {
    if a.Some? && b.Some? then Some(a.value + b.value) else None
  }

  /** The score of one document: `rank` starts at 0 and every query term,
      repeats included, adds its weight in order. */
  ghost function QueryScore(terms: seq<string>, doc: TermFreq, index: Index,
                            log10: real -> real): Option<real>
  {
    Accumulate(terms, t => TermWeight(t, doc, index, log10))
  }

  /** One query term's addend for one document. */
  ghost function TermWeight(term: string, doc: TermFreq, index: Index,
                            log10: real -> real): Option<real>
  {
    Weight(Tf(term, doc), Idf(term, index), log10)
  }

  /** The `rank += ...` loop for any per-term weight: start at 0 and add
      the weight of each term in turn. */
  function Accumulate(terms: seq<string>, weight: string -> Option<real>): Option<real>
    decreases |terms|
  {
    if terms == [] then Some(0.0)
    else Add(Accumulate(terms[..|terms| - 1], weight), weight(terms[|terms| - 1]))
  }

  /** Adding one more term adds its weight. */
  lemma AccumulateSnoc(terms: seq<string>, t: string, weight: string -> Option<real>)
    ensures Accumulate(terms + [t], weight) == Add(Accumulate(terms, weight), weight(t))
  {
    assert (terms + [t])[..|terms|] == terms;
  }

  lemma AddAssociative(a: Option<real>, b: Option<real>, c: Option<real>)
    ensures Add(Add(a, b), c) == Add(a, Add(b, c))
  {
  }

  /** Scores add up over a split query: each occurrence of a query term
      contributes its own addend, nothing is deduplicated. */
  lemma {:induction false} AccumulateAppend(a: seq<string>, b: seq<string>,
                                            weight: string -> Option<real>)
    ensures Accumulate(a + b, weight) == Add(Accumulate(a, weight), Accumulate(b, weight))
    decreases |b|
  {
    if b == [] {
      assert a + b == a;
    } else {
      var b', t := b[..|b| - 1], b[|b| - 1];
      assert b == b' + [t];
      assert a + b == (a + b') + [t];
      AccumulateAppend(a, b', weight);
      AccumulateSnoc(a + b', t, weight);
      AccumulateSnoc(b', t, weight);
      AddAssociative(Accumulate(a, weight), Accumulate(b', weight), weight(t));
    }
  }

  /** The inner loop of the search handler, for one document. */
  method ScoreDocument(terms: seq<string>, doc: TermFreq, index: Index, log10: real -> real)
    returns (score: Option<real>)
    ensures score == QueryScore(terms, doc, index, log10)
  {
    score := Some(0.0);
    for k := 0 to |terms|
      invariant score == QueryScore(terms[..k], doc, index, log10)
    {
      var tf := ComputeTf(terms[k], doc);
      assert terms[..k + 1][..k] == terms[..k];
      score := Add(score, Weight(tf, Idf(terms[k], index), log10));
    }
    assert terms[..|terms|] == terms;
  }

  /** The score is NaN exactly when the query has a term and the document
      has no counts (the unguarded 0/0 of `tf`). */
  lemma {:induction false} QueryScoreUndefined(terms: seq<string>, doc: TermFreq, index: Index,
                                               log10: real -> real)
    ensures QueryScore(terms, doc, index, log10).None? <==> |terms| > 0 && Total(doc) == 0
    decreases |terms|
  {
    if terms != [] {
      QueryScoreUndefined(terms[..|terms| - 1], doc, index, log10);
    }
  }

  /** A document that holds counts but none of the query's terms scores 0. */
  lemma {:induction false} QueryScoreDisjoint(terms: seq<string>, doc: TermFreq, index: Index,
                                              log10: real -> real)
    requires Total(doc) > 0
    requires forall k | 0 <= k < |terms| :: terms[k] !in doc
    ensures QueryScore(terms, doc, index, log10) == Some(0.0)
    decreases |terms|
  {
    if terms != [] {
      QueryScoreDisjoint(terms[..|terms| - 1], doc, index, log10);
    }
  }

  /** What the scenario below needs of the character classes: space is
      whitespace and the ASCII lower-case letters are alphabetic, both
      true of Unicode. */
  ghost predicate SpaceAndLetters(cc: Classes) {
    && cc.Valid()
    && cc.isWhitespace(' ')
    && forall c | 'a' <= c <= 'z' :: cc.isAlphabetic(c)
  }

  lemma WordsAreAlphabetic(cc: Classes)
    requires SpaceAndLetters(cc)
    ensures All("cat", cc.isAlphabetic) && All("dog", cc.isAlphabetic)
  {
  }

  lemma UpperWords()
    ensures UpperAll("cat") == "CAT" && UpperAll("dog") == "DOG"
  {
  }

  /** The lexer splits the three texts of the scenario below into
      upper-cased words. */
  lemma ScenarioTokens(cc: Classes)
    requires SpaceAndLetters(cc)
    ensures Tokens(cc, "cat dog dog") == ["CAT", "DOG", "DOG"]
    ensures Tokens(cc, "dog dog dog") == ["DOG", "DOG", "DOG"]
    ensures Tokens(cc, "cat") == ["CAT"]
  {
    TokensOfCatDogDog(cc);
    TokensOfDogDogDog(cc);
    TokensOfCat(cc);
  }

  lemma TokensOfCatDogDog(cc: Classes)
    requires SpaceAndLetters(cc)
    ensures Tokens(cc, "cat dog dog") == ["CAT", "DOG", "DOG"]
  {
    WordsAreAlphabetic(cc);
    ScenarioTexts();
    ThreeWords(cc, "cat", "dog", "dog");
    UpperWords();
  }

  lemma TokensOfDogDogDog(cc: Classes)
    requires SpaceAndLetters(cc)
    ensures Tokens(cc, "dog dog dog") == ["DOG", "DOG", "DOG"]
  {
    WordsAreAlphabetic(cc);
    ScenarioTexts();
    ThreeWords(cc, "dog", "dog", "dog");
    UpperWords();
  }

  lemma TokensOfCat(cc: Classes)
    requires SpaceAndLetters(cc)
    ensures Tokens(cc, "cat") == ["CAT"]
  {
    WordsAreAlphabetic(cc);
    assert "cat" == [] + "cat";
    OneWord(cc, [], "cat");
    UpperWords();
  }

  /** The scenario's texts as words joined by single spaces. */
  lemma ScenarioTexts()
    ensures "cat dog dog" == "cat" + " " + "dog" + " " + "dog"
    ensures "dog dog dog" == "dog" + " " + "dog" + " " + "dog"
  {
  }

  lemma CountsCatDogDog()
    ensures Counts(map["CAT" := 1, "DOG" := 2], ["CAT", "DOG", "DOG"])
  {
    var ts := ["CAT", "DOG", "DOG"];
    assert (set t | t in ts) == {"CAT", "DOG"};
    assert multiset(ts) == multiset{"CAT", "DOG", "DOG"};
  }

  lemma CountsDogDogDog()
    ensures Counts(map["DOG" := 3], ["DOG", "DOG", "DOG"])
  {
    var ts := ["DOG", "DOG", "DOG"];
    assert (set t | t in ts) == {"DOG"};
    assert multiset(ts) == multiset{"DOG", "DOG", "DOG"};
  }

  /** Two documents, "cat dog dog" and "dog dog dog", indexed as
      `index_document` counts them (`Counts` is its postcondition; the
      tables are the only ones that count those texts): the query "cat"
      scores the first strictly higher, because its term is rarer there,
      whatever increasing `log10` is used. */
  lemma RarerTermScenario(cc: Classes, log10: real -> real) returns (a: TermFreq, b: TermFreq)
    requires SpaceAndLetters(cc)
    requires log10(2.0) > 0.0
    ensures Counts(a, Tokens(cc, "cat dog dog")) && Counts(b, Tokens(cc, "dog dog dog"))
    ensures forall t | Counts(t, Tokens(cc, "cat dog dog")) :: t == a
    ensures forall t | Counts(t, Tokens(cc, "dog dog dog")) :: t == b
    ensures var index := [Entry("a", a), Entry("b", b)];
            var query := Tokens(cc, "cat");
            && QueryScore(query, a, index, log10).Some?
            && QueryScore(query, b, index, log10).Some?
            && QueryScore(query, a, index, log10).value > QueryScore(query, b, index, log10).value
  {
    ScenarioTokens(cc);
    a := map["CAT" := 1, "DOG" := 2];
    b := map["DOG" := 3];
    CountsCatDogDog();
    CountsDogDogDog();
    forall t | Counts(t, ["CAT", "DOG", "DOG"]) ensures t == a {
      CountsDetermine(t, a, ["CAT", "DOG", "DOG"]);
    }
    forall t | Counts(t, ["DOG", "DOG", "DOG"]) ensures t == b {
      CountsDetermine(t, b, ["DOG", "DOG", "DOG"]);
    }
    ScoresOfTables(log10);
  }

  /** The scores of the query "CAT" over the two tables. */
  lemma ScoresOfTables(log10: real -> real)
    requires log10(2.0) > 0.0
    ensures var a := map["CAT" := 1, "DOG" := 2];
            var b := map["DOG" := 3];
            var index := [Entry("a", a), Entry("b", b)];
            && QueryScore(["CAT"], a, index, log10).Some?
            && QueryScore(["CAT"], b, index, log10).Some?
            && QueryScore(["CAT"], a, index, log10).value > QueryScore(["CAT"], b, index, log10).value
  {
    var a := map["CAT" := 1, "DOG" := 2];
    var b := map["DOG" := 3];
    var index := [Entry("a", a), Entry("b", b)];
    TotalRemove(a, "CAT");
    assert a - {"CAT"} == map["DOG" := 2];
    TotalRemove(map["DOG" := 2], "DOG");
    assert map["DOG" := 2] - {"DOG"} == map[];
    TotalRemove(b, "DOG");
    assert b - {"DOG"} == map[];
    assert Total(a) == 3 && Total(b) == 3;
    assert DocumentFrequency("CAT", index) == 1;
    assert Idf("CAT", index) == Ratio(2, 1);
    assert (2 as real) / (1 as real) == 2.0;
    assert ["CAT"][..0] == [];
    assert QueryScore(["CAT"], a, index, log10) == Some((1.0 / 3.0) * log10(2.0));
    assert QueryScore(["CAT"], b, index, log10) == Some(0.0);
  }
}
