/**
  `index_document`: folds the token stream of one document into its
  term-frequency table, a map from term to occurrence count.
*/
module Indexer {
  import opened Wrappers
  import opened CharClasses
  import opened Lexer

  /** The `TF` type alias: term to count. */
  type TermFreq = map<string, nat>

  /** The sum of all counts of a table. */
  ghost function Total(tf: TermFreq): nat
    decreases |tf|
  {
    if tf == map[] then 0
    else
      var t :| t in tf;
      tf[t] + Total(tf - {t})
  }

  /** The sum does not depend on which key is taken out first. */
  lemma {:induction false} TotalRemove(tf: TermFreq, t: string)
    requires t in tf
    ensures Total(tf) == tf[t] + Total(tf - {t})
    decreases |tf|
  {
    var u :| u in tf && Total(tf) == tf[u] + Total(tf - {u});
    if u != t {
      assert t in tf - {u};
      TotalRemove(tf - {u}, t);
      assert u in tf - {t};
      TotalRemove(tf - {t}, u);
      assert tf - {u} - {t} == tf - {t} - {u};
    }
  }

  /** Each count is at most the table's total. */
  lemma CountBelowTotal(tf: TermFreq, t: string)
    requires t in tf
    ensures tf[t] <= Total(tf)
  {
    TotalRemove(tf, t);
  }

  /** The counting step of the loop: bump an existing count, or insert 1.
      The table gains exactly one occurrence of `term`. */
  function Bump(tf: TermFreq, term: string): (r: TermFreq)
    ensures r.Keys == tf.Keys + {term}
    ensures r[term] == (if term in tf then tf[term] else 0) + 1
    ensures forall t | t in tf && t != term :: r[t] == tf[t]
    ensures Total(r) == Total(tf) + 1
  {
    var r := if term in tf then tf[term := tf[term] + 1] else tf[term := 1];
    BumpTotal(tf, term, r);
    r
  }

  lemma BumpTotal(tf: TermFreq, term: string, r: TermFreq)
    requires r == if term in tf then tf[term := tf[term] + 1] else tf[term := 1]
    ensures Total(r) == Total(tf) + 1
  {
    TotalRemove(r, term);
    if term in tf {
      TotalRemove(tf, term);
      SameAwayFrom(r, tf, term);
    } else {
      SameAwayFrom(r, tf, term);
      assert tf - {term} == tf;
    }
  }

  /** Two tables that agree away from `term` agree once it is removed. */
  lemma SameAwayFrom(a: TermFreq, b: TermFreq, term: string)
    requires a.Keys - {term} == b.Keys - {term}
    requires forall t | t in a && t in b && t != term :: a[t] == b[t]
    ensures a - {term} == b - {term}
  {
  }

  /** `tf` counts exactly the terms of `seen`: its keys are the terms seen,
      and each count is that term's number of occurrences. */
  ghost predicate Counts(tf: TermFreq, seen: seq<string>) {
    && tf.Keys == (set t | t in seen)
    && forall t | t in tf :: tf[t] == multiset(seen)[t] && tf[t] >= 1
  }

  /** Counting one more term keeps the table exact. */
  lemma CountStep(tf: TermFreq, seen: seq<string>, term: string)
    requires Counts(tf, seen)
    ensures Counts(Bump(tf, term), seen + [term])
  {
    var r := Bump(tf, term);
    var seen' := seen + [term];
    assert multiset(seen') == multiset(seen) + multiset{term};
    assert r.Keys == (set t | t in seen');
  }

  /** The same step, phrased on a prefix of the term stream. */
  lemma CountNext(tf: TermFreq, terms: seq<string>, i: nat)
    requires i < |terms| && Counts(tf, terms[..i])
    ensures Counts(Bump(tf, terms[i]), terms[..i + 1])
  {
    assert terms[..i + 1] == terms[..i] + [terms[i]];
    CountStep(tf, terms[..i], terms[i]);
  }

  /** The table is a function of the terms: two tables that count the
      same terms are equal. */
  lemma CountsDetermine(a: TermFreq, b: TermFreq, seen: seq<string>)
    requires Counts(a, seen) && Counts(b, seen)
    ensures a == b
  {
    assert a.Keys == b.Keys;
    assert forall t | t in a :: a[t] == b[t];
  }

  /** The counting loop of `index_document`, over the terms the lexer
      yields: the keys are exactly those terms, each count is that term's
      number of occurrences (so at least 1), and the counts add up to the
      number of terms. */
  method CountTerms(terms: seq<string>) returns (tf: TermFreq)
    ensures tf.Keys == set t | t in terms
    ensures forall t | t in tf :: tf[t] == multiset(terms)[t] && tf[t] >= 1
    ensures Total(tf) == |terms|
  {
    tf := map[];
    for i := 0 to |terms|
      invariant Counts(tf, terms[..i])
      invariant Total(tf) == i
    {
      CountNext(tf, terms, i);
      tf := Bump(tf, terms[i]);
    }
    assert terms[..|terms|] == terms;
  }

  /** `index_document` on already extracted text: the table of the
      document's terms. */
  method IndexDocument(cc: Classes, content: seq<char>) returns (tf: TermFreq)
    ensures tf.Keys == set t | t in Tokens(cc, content)
    ensures forall t | t in tf :: tf[t] == multiset(Tokens(cc, content))[t] && tf[t] >= 1
    ensures Total(tf) == |Tokens(cc, content)|
  {
    tf := CountTerms(Tokens(cc, content));
  }
}
