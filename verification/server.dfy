/**
  The pure part of `serve_request`: the `(method, url)` routing table and
  the search handler's ranking.  Reading the body, the JSON encoding and
  the transport are outside the model; a response is described by the
  file or the values the source hands to `serve_file` / `serve_json`.
*/
module Server {
  import opened Wrappers
  import opened CharClasses
  import opened Lexer
  import opened Scorer
  import opened Ranker

  /** tiny_http's request methods. */
  datatype HttpMethod =
    | Get | Head | Post | Put | Delete | Connect | Options | Trace | Patch
    | NonStandard(name: string)

  datatype Route = IndexPage | SearchApi | NotFound

  /** The `match (method, url)` of `serve_request`: exact comparison of
      the whole URL, nothing stripped. */
  function RouteOf(m: HttpMethod, url: string): (r: Route)
    ensures r == IndexPage <==> m == Get && (url == "/" || url == "/index.html")
    ensures r == SearchApi <==> m == Post && url == "/api/search"
    ensures r == NotFound <==>
      !(m == Get && (url == "/" || url == "/index.html")) && !(m == Post && url == "/api/search")
  {
    match m
    case Get => if url == "/" || url == "/index.html" then IndexPage else NotFound
    case Post => if url == "/api/search" then SearchApi else NotFound
    case _ => NotFound
  }

  /** What a handler sends back. */
  datatype Response =
    | Page(file: seq<string>, status: nat)
    | Json(results: seq<string>, count: nat, status: nat)
    | Aborted

  datatype SearchOutcome = Ranked(ranking: seq<Scored>) | Panicked

  /** Some document's score is NaN. */
  ghost predicate HasUndefinedScore(terms: seq<string>, index: Index, log10: real -> real) {
    exists i | 0 <= i < |index| :: QueryScore(terms, index[i].doc, index, log10).None?
  }

  /** The entries of the index paired with their scores. */
  ghost function ScoredIndex(terms: seq<string>, index: Index, log10: real -> real): (s: seq<Scored>)
    requires !HasUndefinedScore(terms, index, log10)
    ensures |s| == |index|
  {
    seq(|index|, i requires 0 <= i < |index| =>
      (index[i].path, QueryScore(terms, index[i].doc, index, log10).value))
  }

  /** The search handler's loop: every document is scored against the
      query's terms and ranked.  A NaN score makes `partial_cmp(..).unwrap()`
      panic as soon as the sort compares it, which happens exactly when the
      index has at least two documents.  Otherwise the ranking holds every
      document once, sorted by non-increasing score, ties in index order. */
  method RankQuery(terms: seq<string>, index: Index, log10: real -> real)
    returns (out: SearchOutcome)
    ensures out.Panicked? <==> |index| >= 2 && HasUndefinedScore(terms, index, log10)
    ensures out.Ranked? ==>
      && |out.ranking| == |index|
      && SortedDesc(out.ranking)
      && multiset(Paths(out.ranking)) == multiset(IndexPaths(index))
    ensures out.Ranked? && !HasUndefinedScore(terms, index, log10) ==>
      && multiset(out.ranking) == multiset(ScoredIndex(terms, index, log10))
      && forall v :: Ties(out.ranking, v) == Ties(ScoredIndex(terms, index, log10), v)
    ensures terms == [] ==> out.Ranked? && Paths(out.ranking) == IndexPaths(index)
  {
    var scored: seq<Scored> := [];
    for i := 0 to |index|
      invariant |scored| == i
      invariant forall k | 0 <= k < i :: Recorded(terms, index, log10, k, scored[k])
    {
      var s := ScoreDocument(terms, index[i].doc, index, log10);
      if s.None? && |index| >= 2 {
        return Panicked;
      }
      // With a single document the sort never compares, so a NaN score
      // is kept; its value is never observed.
      var rank := if s.Some? then s.value else 0.0;
      assert Recorded(terms, index, log10, i, (index[i].path, rank));
      scored := scored + [(index[i].path, rank)];
    }
    ScoredMatchesIndex(terms, index, log10, scored);
    var ranked := Rank(scored);
    out := Ranked(ranked);
    if terms == [] {
      // Every score is 0, so the stable sort keeps the index order.
      assert forall k | 0 <= k < |scored| :: scored[k].1 == 0.0 by {
        assert forall k | 0 <= k < |scored| :: Recorded(terms, index, log10, k, scored[k]);
      }
      LevelKeepsOrder(scored, ranked, 0.0);
    }
  }

  /** Entry `k`'s pair in the loop: its path and its score, or, for a lone
      document, a NaN score replaced by a placeholder. */
  ghost predicate Recorded(terms: seq<string>, index: Index, log10: real -> real,
                           k: nat, p: Scored)
    requires k < |index|
  {
    && p.0 == index[k].path
    && (|| QueryScore(terms, index[k].doc, index, log10) == Some(p.1)
        || (QueryScore(terms, index[k].doc, index, log10).None? && |index| < 2))
  }

  /** The loop's scored list is the index's paths with their scores. */
  lemma ScoredMatchesIndex(terms: seq<string>, index: Index, log10: real -> real, scored: seq<Scored>)
    requires |scored| == |index|
    requires forall k | 0 <= k < |index| :: Recorded(terms, index, log10, k, scored[k])
    ensures Paths(scored) == IndexPaths(index)
    ensures !HasUndefinedScore(terms, index, log10) ==> scored == ScoredIndex(terms, index, log10)
  {
  }

  function IndexPaths(index: Index): (ps: seq<string>)
    ensures |ps| == |index|
    ensures forall i | 0 <= i < |index| :: ps[i] == index[i].path
  {
    seq(|index|, i requires 0 <= i < |index| => index[i].path)
  }

  /** `results` are the paths of a stable descending ranking of `scored`:
      such a ranking exists, and every one of them lists these paths. */
  ghost predicate StablyRankedPaths(results: seq<string>, scored: seq<Scored>) {
    && (exists r :: RanksStably(r, scored) && results == Paths(r))
    && forall r | RanksStably(r, scored) :: results == Paths(r)
  }

  /** The `/api/search` branch on the query's terms: `Aborted` exactly
      when the ranking panics; otherwise a status-200 JSON answer holding
      the index's paths, their number, and, when every score is defined,
      the paths in the one stable order of non-increasing score. */
  method Search(terms: seq<string>, index: Index, log10: real -> real) returns (resp: Response)
    ensures resp.Aborted? <==> |index| >= 2 && HasUndefinedScore(terms, index, log10)
    ensures !resp.Aborted? ==>
      && resp.Json?
      && resp.status == 200
      && resp.count == |resp.results| == |index|
      && multiset(resp.results) == multiset(IndexPaths(index))
    ensures !HasUndefinedScore(terms, index, log10) ==>
      && resp.Json?
      && StablyRankedPaths(resp.results, ScoredIndex(terms, index, log10))
  {
    var out := RankQuery(terms, index, log10);
    if out.Panicked? {
      resp := Aborted;
    } else {
      resp := Json(Paths(out.ranking), |out.ranking|, 200);
      if !HasUndefinedScore(terms, index, log10) {
        var scored := ScoredIndex(terms, index, log10);
        assert RanksStably(out.ranking, scored);
        StableRankingUnique(out.ranking, scored);
      }
    }
  }

  /** `serve_request` after the body has been read as text.  The two static
      pages are served from `static/`; a search runs the query's terms
      through `Search`. */
  method ServeRequest(cc: Classes, log10: real -> real, m: HttpMethod, url: string,
                      body: seq<char>, index: Index)
    returns (resp: Response)
    ensures RouteOf(m, url) == IndexPage ==> resp == Page(["static", "index.html"], 200)
    ensures RouteOf(m, url) == NotFound ==> resp == Page(["static", "404.html"], 404)
    ensures RouteOf(m, url) == SearchApi ==>
      && (resp.Aborted? <==> |index| >= 2 && HasUndefinedScore(Tokens(cc, body), index, log10))
      && (!resp.Aborted? ==>
            && resp.Json?
            && resp.status == 200
            && resp.count == |resp.results| == |index|
            && multiset(resp.results) == multiset(IndexPaths(index)))
    ensures RouteOf(m, url) == SearchApi && !HasUndefinedScore(Tokens(cc, body), index, log10) ==>
      && resp.Json?
      && StablyRankedPaths(resp.results, ScoredIndex(Tokens(cc, body), index, log10))
  {
    var route := RouteOf(m, url);
    if route == IndexPage {
      resp := Page(["static", "index.html"], 200);
    } else if route == SearchApi {
      resp := Search(Tokens(cc, body), index, log10);
    } else {
      resp := Page(["static", "404.html"], 404);
    }
  }
}
