# RLSE search core in Dafny

A model of the indexing and ranking core of RLSE, a small TF-IDF search
engine written in Rust.  It covers:

- the `Lexer` tokenizer: whitespace skipping, `chop`, `chop_while` and the
  maximal-munch `next_token`, iterated to exhaustion;
- the term-frequency counting loop of `index_document`;
- the integer skeleton of `tf` (stored count over the document's total)
  and `idf` (document count over `max(1, document frequency)`), and the
  per-document query score built from them;
- the ranking loop of the search handler: push, then a stable sort by
  descending score;
- the `(method, url)` routing of `serve_request`.

Modules follow the program's components: `CharClasses` (the Unicode
predicates the lexer consults), `Lexer`, `Indexer`, `Scorer`, `Ranker`
and `Server`, with `Wrappers` for `Option`.

Modelling choices:

- Unicode classes are abstract: a `Classes` value carries
  `isWhitespace`, `isAlphabetic` and `isNumeric`; alphanumeric is
  alphabetic or numeric by definition.  `Classes.Valid` assumes what
  Unicode guarantees: whitespace is never alphanumeric, and `A`-`Z` are
  alphabetic.  Upper-casing is ASCII-only, as `to_ascii_uppercase` is.
- The lexer's mutable slice cursor becomes a `seq<char>` that each
  operation returns.  A `Lexeme` pairs each term with the raw slice it
  was cut from; the source only yields the term.
- A TF table is a `map<string, nat>`.  Its total is the ghost `Total`;
  `SumCounts` computes it by walking the map in an arbitrary order.
- The index (`HashMap<PathBuf, TF>`) is a sequence of entries in a fixed
  enumeration order.  Paths are strings.
- Scores are exact reals.  `tf` and `idf` are kept as unevaluated
  quotients (`Ratio`), and `log10` is a parameter.  `f32` NaN is
  modelled as `None`.
- The request handler is modelled after the body has been decoded to
  text.  A response is described by the file handed to `serve_file` or
  by the values handed to `serve_json`.

Two behaviours of the code are modelled as written:

- The code does not guard `tf` for a document with no counts.  It
  computes 0/0, which is NaN.  A NaN score then panics in
  `partial_cmp(..).unwrap()` once the sort compares it, which happens
  exactly when the index has two or more documents.  `RankQuery`
  returns `Panicked` in that case, and `ServeRequest` returns `Aborted`.
- Routing compares the whole URL exactly.

## Model

| member | source | states |
|---|---|---|
| CharClasses.AsciiUpper | src/utils.rs:49 | only `a`-`z` change, each to the capital at the same alphabet position; the result is never a lower-case ASCII letter |
| CharClasses.UpperAll | src/utils.rs:49 | the upper-cased token keeps the raw slice's length and upper-cases it character by character |
| CharClasses.UpperKeepsAlphanumeric | src/utils.rs:48-49 | upper-casing an alphanumeric character gives an alphanumeric character, so alphabetic terms consist of alphanumeric characters |
| Lexer.Chop | src/utils.rs:38-42 | the token has length `i` and token ++ new content == old content |
| Lexer.ScanWhile | src/utils.rs:31-35 | the counter loop stops at the end or at the first character failing the predicate; every character before the stop satisfies it |
| Lexer.ChopWhile | src/utils.rs:31-37 | splits off the longest prefix satisfying the predicate: prefix ++ rest == content, all of the prefix satisfies it, the next remaining character (if any) fails it |
| Lexer.TrimLeft | src/utils.rs:25-29 | the result is a suffix of the content, everything dropped is whitespace, and the result is empty or starts with a non-whitespace character |
| Lexer.NextToken | src/utils.rs:43-55 | `None` exactly when nothing but whitespace remains, and then the content is empty; otherwise a non-empty term whose raw slice ++ new content == trimmed content, and the content strictly shrinks |
| Lexer.NextTokenClassifies | src/utils.rs:48-54 | an alphabetic first character yields the maximal alphanumeric run upper-cased; else a numeric one yields the maximal numeric run verbatim; else exactly that one character |
| Lexer.NextTokenOnExhausted | src/utils.rs:44-47 | an exhausted lexer yields `None` and stays exhausted |
| Lexer.Lex | src/utils.rs:58-64 | iterating the lexer to exhaustion terminates, and every lexeme has a non-empty term and a non-empty raw slice |
| Lexer.TokensStep | src/utils.rs:61-63 | the iterator's sequence is the term of one `next_token` followed by the sequence from the new content, or empty on `None` |
| Lexer.TrimLeftSkips | src/utils.rs:25-29 | `trim_left` drops exactly a whitespace prefix that ends at a non-whitespace character or at the end |
| Lexer.NextTokenWord | src/utils.rs:43-50 | after whitespace, an alphabetic word followed by whitespace or the end is one token: the word upper-cased, and the content continues at what follows the word |
| Lexer.ThreeWords | src/utils.rs:25-64 | three alphabetic words separated by single spaces lex to the three words upper-cased, in order |
| Lexer.LexReconstructs | src/utils.rs:25-54 | concatenating the raw slices of all terms reconstructs the input with every whitespace character removed, in order |
| Lexer.TokensHaveNoWhitespace | src/utils.rs:25-54 | no emitted term contains a whitespace character |
| Indexer.TotalRemove | src/utils.rs:131 | the sum of a table's counts does not depend on the order the entries are visited |
| Indexer.Bump | src/utils.rs:70-74 | one counting step: the term's count goes up by one (from 0 when absent), other counts are unchanged, and the total grows by one |
| Indexer.CountTerms | src/utils.rs:67-75 | over any term stream, the keys are exactly the terms seen, each count is that term's number of occurrences and at least 1, and the counts sum to the stream's length |
| Indexer.CountsDetermine | src/utils.rs:67-75 | the counts of a term stream are unique: any two tables that count the same stream are equal |
| Indexer.IndexDocument | src/utils.rs:66-77 | the keys are exactly the emitted terms, each count is that term's number of occurrences and at least 1, and the counts sum to the number of terms |
| Scorer.StoredCount | src/utils.rs:131 | the numerator of `tf` is the count stored for a present term, 0 for an absent term, and never exceeds the document's total |
| Scorer.SumCounts | src/utils.rs:131 | the denominator of `tf`, summed over the map in arbitrary order, equals the document's total |
| Scorer.Tf | src/utils.rs:130-132 | `tf` is the term's stored count (0 when absent) over the document's total; it is at most 1, and it is the undefined 0/0 exactly when the document has no counts |
| Scorer.ComputeTf | src/utils.rs:130-132 | `tf` as the code evaluates it agrees with the quotient above |
| Scorer.DocumentFrequency | src/utils.rs:135 | the count equals the number of index positions whose table contains the term; it is at most N, 0 exactly when no document contains the term, and N exactly when all do |
| Scorer.Idf | src/utils.rs:134-136 | the `idf` quotient is N over `max(1, number of index positions whose table contains the term)`, a divisor in `[1, max(1, N)]`; a term in every document of a non-empty index gives N/N, and a term in no document gives N/1 |
| Scorer.IdfAntitone | src/utils.rs:134-136 | a term with a document frequency no larger than another's has an `idf` quotient at least as large |
| Scorer.IdfAntitoneNested | src/utils.rs:134-136 | a term found only in documents that also contain another term has an `idf` quotient at least as large as that term's |
| Scorer.Weight | src/utils.rs:178 | a term's contribution is NaN exactly when `tf` is 0/0, and 0 when the term is absent from a non-empty document |
| Scorer.Add | src/utils.rs:178 | accumulating a score: NaN absorbs, otherwise the values add |
| Scorer.ScoreDocument | src/utils.rs:176-179 | the inner loop computes the document's query score: 0 plus one weight per query term, in order |
| Scorer.QueryScoreUndefined | src/utils.rs:131 | a document's score is NaN exactly when the query has a term and the document has no counts |
| Scorer.AccumulateAppend | src/utils.rs:177-179 | for any per-term weight, the score of a concatenated query is the sum of the parts' scores, so repeated query terms each add their own weight |
| Scorer.QueryScoreDisjoint | src/utils.rs:176-179 | a non-empty document containing none of the query's terms scores 0 |
| Scorer.ScenarioTokens | src/utils.rs:25-64 | with space as whitespace and `a`-`z` alphabetic, "cat dog dog" lexes to CAT DOG DOG, "dog dog dog" to DOG DOG DOG and "cat" to CAT |
| Scorer.RarerTermScenario | src/utils.rs:130-136 | the tables the counting loop builds from the lexed texts "cat dog dog" and "dog dog dog" exist and are unique, and over that two-document index the query "cat" scores the first strictly higher |
| Ranker.Position | src/utils.rs:180-181 | the stable descending sort puts a newly pushed pair after every pair ranked at least as high and before every pair ranked lower |
| Ranker.Insert | src/utils.rs:180-181 | push followed by the stable sort keeps the array sorted, adds exactly the new pair, and appends it to the end of its tie group |
| Ranker.Rank | src/utils.rs:174-182 | the ranked list is a permutation of the scored entries (paths included), sorted by non-increasing score, with every tie group in index order |
| Ranker.StableOrderUnique | src/utils.rs:181 | two sorted lists with the same tie groups are equal, so the ranking is determined by the scores and the index's enumeration order |
| Ranker.StableRankingUnique | src/utils.rs:181 | any list that is sorted by non-increasing score and has the same tie groups as the scored entries is the same list |
| Server.RouteOf | src/utils.rs:166-192 | `(GET, "/")` and `(GET, "/index.html")` route to the index page, `(POST, "/api/search")` to search, and every other pair to not-found |
| Server.RankQuery | src/utils.rs:174-187 | panics exactly when some score is NaN and there are two or more documents; otherwise the ranking holds every document once, sorted, ties in index order; an empty query returns the documents in index order |
| Server.Search | src/utils.rs:171-188 | aborts exactly when the sort would compare a NaN score; otherwise answers 200 with `count` equal to the number of documents and the results a permutation of the index's paths, and, with no NaN score, a stable descending ranking of the scores exists, it is unique, and the results are its paths |
| Server.ServeRequest | src/utils.rs:164-194 | index page and not-found page with statuses 200 and 404; search answers 200 with `count` equal to the number of documents, the results a permutation of the index's paths, in the order of the stable descending ranking (which exists and is unique) when no score is NaN, unless the handler panics |

## Left out

- Reading and parsing documents (`read_xml_file`) is left out.  It is file I/O plus XML parsing by an external crate; the model starts from the extracted text.
- Building and saving the index (`save_index_to_file`) is left out.  It enumerates directories, creates files and serialises with serde_json.  Its `println!` tallies are observability only; the "total tokens" there sums distinct terms per document, not tokens.
- Loading the index (`get_index_from_file`) is left out.  It is file I/O and serde_json deserialisation.
- `serve`, `serve_file`, `serve_json`, the response headers, and reading the request body are left out.  They are transport code (tiny_http).  A body that is not valid UTF-8 panics in `from_utf8(..).unwrap()`; the model takes the body already decoded to text.
- `path.to_str().unwrap()` is not modelled.  It panics on a path that is not valid UTF-8, and the model's paths are already strings.
- `f32` arithmetic and `log10` are left out.  Scores are exact reals and `log10` is a parameter, so rounding is not modelled.  The order among tied scores can also differ from what `f32` rounding would give.
- The enumeration order of `HashMap` is not modelled.  The index is a fixed sequence, so ties are ordered by that sequence.
- Indexer.CountTerms: counts are unbounded `nat`s.  The source's `usize` counts cannot overflow for any input that fits in memory.
- Server.ServeRequest: `Aborted` stands for the panic of `partial_cmp(..).unwrap()`.  In the source that panic unwinds out of `serve_request` on the server's only thread and ends `serve`'s request loop, so no later request is answered; the model describes one request and does not show the server stopping.
- Server.RankQuery: when the only document scores NaN, the model gives it a placeholder score.  The source never compares that value, so it is not observable.
- Server.RankQuery: scores all documents first and then ranks them.  The source pushes and sorts inside the scoring loop.  The two give the same outcome, because scoring does not read the array.
