/**
  The `Lexer` of `src/utils.rs`: a cursor over a slice of characters that
  yields one term per call of `next_token`.  The cursor's `content` is
  modelled as the remaining `seq<char>`; every operation returns the new
  content instead of mutating it.
*/
module Lexer {
  import opened Wrappers
  import opened CharClasses

  /** Every character of `s` satisfies `p`. */
  predicate All(s: seq<char>, p: char -> bool) {
    forall j | 0 <= j < |s| :: p(s[j])
  }

  /** `chop(i)`: splits off the first `i` characters.  Slicing past the end
      panics in the source, hence the precondition. */
  function Chop(content: seq<char>, i: nat): (r: (seq<char>, seq<char>))
    requires i <= |content|
    ensures |r.0| == i
    ensures r.0 + r.1 == content
  {
    (content[..i], content[i..])
  }

  /** The counting loop of `chop_while`, as tail recursion on the loop
      counter `i`: it stops at the end of the content or at the first
      character that fails `p`. */
  function ScanWhile(content: seq<char>, p: char -> bool, i: nat): (n: nat)
    requires i <= |content|
    requires forall j | 0 <= j < i :: p(content[j])
    ensures i <= n <= |content|
    ensures forall j | 0 <= j < n :: p(content[j])
    ensures n == |content| || !p(content[n])
    decreases |content| - i
  {
    if i < |content| && p(content[i]) then ScanWhile(content, p, i + 1) else i
  }

  /** `chop_while(p)`: splits off the longest prefix whose characters all
      satisfy `p`; the first remaining character, if any, fails `p`. */
  function ChopWhile(content: seq<char>, p: char -> bool): (r: (seq<char>, seq<char>))
    ensures r.0 + r.1 == content
    ensures All(r.0, p)
    ensures r.1 == [] || !p(r.1[0])
  {
    Chop(content, ScanWhile(content, p, 0))
  }

  /** `trim_left`: drops leading whitespace. */
  function TrimLeft(cc: Classes, content: seq<char>): (r: seq<char>)
    ensures |r| <= |content|
    ensures r == content[|content| - |r|..]
    ensures All(content[..|content| - |r|], cc.isWhitespace)
    ensures r == [] || !cc.isWhitespace(r[0])
    decreases |content|
  {
    if |content| > 0 && cc.isWhitespace(content[0]) then
      var r := TrimLeft(cc, content[1..]);
      assert content[..|content| - |r|] == [content[0]] + content[1..][..|content| - 1 - |r|];
      r
    else
      content
  }

  /** One emitted term together with the raw slice it was made from. */
  datatype Lexeme = Lexeme(term: string, raw: seq<char>)

  /** The outcome of `next_token`: the term, if any, and the new content. */
  datatype Step = Step(token: Option<Lexeme>, content: seq<char>)

  /** `next_token`: skip whitespace, then apply the maximal-munch rule
      chosen by the class of the first character.  An empty remainder
      yields `None` and leaves the content empty; otherwise the term is
      non-empty and the content strictly shrinks, so iteration ends. */
  function NextToken(cc: Classes, content: seq<char>): (r: Step)
    ensures TrimLeft(cc, content) == [] <==> r.token.None?
    ensures r.token.None? ==> r.content == []
    ensures r.token.Some? ==>
      && r.token.value.raw + r.content == TrimLeft(cc, content)
      && |r.token.value.raw| > 0
      && |r.token.value.term| > 0
      && |r.content| < |content|
  {
    var t := TrimLeft(cc, content);
    if |t| == 0 then
      Step(None, t)
    else if cc.isAlphabetic(t[0]) then
      var run := ChopWhile(t, cc.IsAlphanumeric);
      assert run.0[0] == t[0];
      Step(Some(Lexeme(UpperAll(run.0), run.0)), run.1)
    else if cc.isNumeric(t[0]) then
      var run := ChopWhile(t, cc.isNumeric);
      assert run.0[0] == t[0];
      Step(Some(Lexeme(run.0, run.0)), run.1)
    else
      var one := Chop(t, 1);
      Step(Some(Lexeme(one.0, one.0)), one.1)
  }

  /** The maximal-munch classification of `next_token`, by the class of
      the first non-whitespace character `t[0]`: alphabetic yields the
      longest alphanumeric run upper-cased; otherwise numeric yields the
      longest numeric run verbatim; otherwise exactly that one character. */
  lemma NextTokenClassifies(cc: Classes, content: seq<char>)
    requires TrimLeft(cc, content) != []
    ensures var t := TrimLeft(cc, content);
      var r := NextToken(cc, content);
      && r.token.Some?
      && (cc.isAlphabetic(t[0]) ==>
            && All(r.token.value.raw, cc.IsAlphanumeric)
            && (r.content == [] || !cc.IsAlphanumeric(r.content[0]))
            && r.token.value.term == UpperAll(r.token.value.raw))
      && (!cc.isAlphabetic(t[0]) && cc.isNumeric(t[0]) ==>
            && All(r.token.value.raw, cc.isNumeric)
            && (r.content == [] || !cc.isNumeric(r.content[0]))
            && r.token.value.term == r.token.value.raw)
      && (!cc.IsAlphanumeric(t[0]) ==>
            && r.token.value.raw == [t[0]]
            && r.token.value.term == r.token.value.raw)
  {
  }

  /** Running the `Iterator` impl to exhaustion: every lexeme, in order. */
  function Lex(cc: Classes, content: seq<char>): (ls: seq<Lexeme>)
    ensures forall i | 0 <= i < |ls| :: |ls[i].term| > 0 && |ls[i].raw| > 0
    decreases |content|
  {
    var s := NextToken(cc, content);
    match s.token
    case None => []
    case Some(l) => [l] + Lex(cc, s.content)
  }

  /** The terms the iterator yields. */
  function Terms(ls: seq<Lexeme>): (ts: seq<string>)
    ensures |ts| == |ls|
    ensures forall i | 0 <= i < |ls| :: ts[i] == ls[i].term
  {
    seq(|ls|, i requires 0 <= i < |ls| => ls[i].term)
  }

  /** The raw slices consumed for the terms. */
  function Raws(ls: seq<Lexeme>): (rs: seq<seq<char>>)
    ensures |rs| == |ls|
    ensures forall i | 0 <= i < |ls| :: rs[i] == ls[i].raw
  {
    seq(|ls|, i requires 0 <= i < |ls| => ls[i].raw)
  }

  /** `Lexer::new(content)` iterated to the end. */
  function Tokens(cc: Classes, content: seq<char>): seq<string> {
    Terms(Lex(cc, content))
  }

  function Flatten(ss: seq<seq<char>>): seq<char> {
    if ss == [] then [] else ss[0] + Flatten(ss[1..])
  }

  /** The content with every whitespace character removed, in order. */
  function NonWhitespace(cc: Classes, s: seq<char>): seq<char> {
    if s == [] then []
    else (if cc.isWhitespace(s[0]) then [] else [s[0]]) + NonWhitespace(cc, s[1..])
  }

  lemma TermsCons(l: Lexeme, ls: seq<Lexeme>)
    ensures Terms([l] + ls) == [l.term] + Terms(ls)
  {
  }

  /** One call of the iterator: a `Some` step contributes its term and
      continues from the new content; a `None` step ends the sequence. */
  lemma TokensStep(cc: Classes, content: seq<char>)
    ensures NextToken(cc, content).token.None? ==> Tokens(cc, content) == []
    ensures NextToken(cc, content).token.Some? ==>
      Tokens(cc, content) ==
        [NextToken(cc, content).token.value.term] + Tokens(cc, NextToken(cc, content).content)
  {
    var s := NextToken(cc, content);
    LexStep(cc, content);
    if s.token.Some? {
      TermsCons(s.token.value, Lex(cc, s.content));
    }
  }

  lemma {:induction false} NonWhitespaceAppend(cc: Classes, a: seq<char>, b: seq<char>)
    ensures NonWhitespace(cc, a + b) == NonWhitespace(cc, a) + NonWhitespace(cc, b)
    decreases |a|
  {
    if a == [] {
      assert a + b == b;
    } else {
      assert (a + b)[0] == a[0];
      assert (a + b)[1..] == a[1..] + b;
      NonWhitespaceAppend(cc, a[1..], b);
    }
  }

  lemma {:induction false} NonWhitespaceOfWhitespace(cc: Classes, s: seq<char>)
    requires All(s, cc.isWhitespace)
    ensures NonWhitespace(cc, s) == []
    decreases |s|
  {
    if s != [] {
      NonWhitespaceOfWhitespace(cc, s[1..]);
    }
  }

  /** `s` holds no whitespace character. */
  predicate Solid(cc: Classes, s: seq<char>) {
    forall j | 0 <= j < |s| :: !cc.isWhitespace(s[j])
  }

  lemma {:induction false} NonWhitespaceOfSolid(cc: Classes, s: seq<char>)
    requires Solid(cc, s)
    ensures NonWhitespace(cc, s) == s
    decreases |s|
  {
    if s != [] {
      NonWhitespaceOfSolid(cc, s[1..]);
    }
  }

  /** The raw slice of a step holds no whitespace. */
  lemma RawIsSolid(cc: Classes, content: seq<char>)
    requires cc.Valid()
    requires NextToken(cc, content).token.Some?
    ensures Solid(cc, NextToken(cc, content).token.value.raw)
  {
    var t := TrimLeft(cc, content);
    var raw := NextToken(cc, content).token.value.raw;
    NextTokenClassifies(cc, content);
    assert raw[0] == t[0];
    if cc.isAlphabetic(t[0]) {
      assert forall j | 0 <= j < |raw| :: cc.IsAlphanumeric(raw[j]);
    } else if cc.isNumeric(t[0]) {
      assert forall j | 0 <= j < |raw| :: cc.IsAlphanumeric(raw[j]);
    }
  }

  /** One call of the iterator, seen on the lexemes. */
  lemma {:induction false} LexStep(cc: Classes, content: seq<char>)
    ensures NextToken(cc, content).token.None? ==> Lex(cc, content) == []
    ensures NextToken(cc, content).token.Some? ==>
      Lex(cc, content) ==
        [NextToken(cc, content).token.value] + Lex(cc, NextToken(cc, content).content)
  {
  }

  /** Skipping whitespace does not change the non-whitespace content. */
  lemma TrimLeftKeepsNonWhitespace(cc: Classes, content: seq<char>)
    ensures NonWhitespace(cc, TrimLeft(cc, content)) == NonWhitespace(cc, content)
  {
    var t := TrimLeft(cc, content);
    var skipped := content[..|content| - |t|];
    assert content == skipped + t;
    NonWhitespaceAppend(cc, skipped, t);
    NonWhitespaceOfWhitespace(cc, skipped);
  }

  /** One step of the iterator consumes its raw slice, after whitespace,
      and nothing else of the non-whitespace content. */
  lemma StepReconstructs(cc: Classes, content: seq<char>)
    requires cc.Valid()
    requires NextToken(cc, content).token.Some?
    ensures NonWhitespace(cc, content)
         == NextToken(cc, content).token.value.raw + NonWhitespace(cc, NextToken(cc, content).content)
  {
    var s := NextToken(cc, content);
    TrimLeftKeepsNonWhitespace(cc, content);
    RawIsSolid(cc, content);
    NonWhitespaceOfSolid(cc, s.token.value.raw);
    NonWhitespaceAppend(cc, s.token.value.raw, s.content);
  }

  lemma FlattenRawsCons(l: Lexeme, rest: seq<Lexeme>)
    ensures Flatten(Raws([l] + rest)) == l.raw + Flatten(Raws(rest))
  {
    var rs := [l.raw] + Raws(rest);
    assert Raws([l] + rest) == rs;
    assert rs[1..] == Raws(rest);
  }

  /** Concatenating the raw slices consumed for all terms gives back the
      input with its whitespace removed, in order. */
  lemma {:induction false} LexReconstructs(cc: Classes, content: seq<char>)
    requires cc.Valid()
    ensures Flatten(Raws(Lex(cc, content))) == NonWhitespace(cc, content)
    decreases |content|
  {
    var s := NextToken(cc, content);
    LexStep(cc, content);
    if s.token.None? {
      TrimLeftKeepsNonWhitespace(cc, content);
      assert Raws([]) == [];
    } else {
      FlattenRawsCons(s.token.value, Lex(cc, s.content));
      LexReconstructs(cc, s.content);
      StepReconstructs(cc, content);
    }
  }

  /** The term of one step holds no whitespace. */
  lemma TermIsSolid(cc: Classes, content: seq<char>)
    requires cc.Valid()
    requires NextToken(cc, content).token.Some?
    ensures Solid(cc, NextToken(cc, content).token.value.term)
  {
    var l := NextToken(cc, content).token.value;
    var t := TrimLeft(cc, content);
    RawIsSolid(cc, content);
    NextTokenClassifies(cc, content);
    if cc.isAlphabetic(t[0]) {
      forall j | 0 <= j < |l.term|
        ensures !cc.isWhitespace(l.term[j])
      {
        assert cc.IsAlphanumeric(l.raw[j]);
        UpperKeepsAlphanumeric(cc, l.raw[j]);
      }
    }
  }

  /** No emitted term contains a whitespace character. */
  lemma {:induction false} TokensHaveNoWhitespace(cc: Classes, content: seq<char>)
    requires cc.Valid()
    ensures forall i | 0 <= i < |Tokens(cc, content)| :: Solid(cc, Tokens(cc, content)[i])
    decreases |content|
  {
    var s := NextToken(cc, content);
    TokensStep(cc, content);
    if s.token.Some? {
      TermIsSolid(cc, content);
      TokensHaveNoWhitespace(cc, s.content);
      AllSolidCons(cc, s.token.value.term, Tokens(cc, s.content));
    }
  }

  lemma AllSolidCons(cc: Classes, h: seq<char>, rest: seq<seq<char>>)
    requires Solid(cc, h)
    requires forall i | 0 <= i < |rest| :: Solid(cc, rest[i])
    ensures forall i | 0 <= i < |[h] + rest| :: Solid(cc, ([h] + rest)[i])
  {
    var ts := [h] + rest;
    assert forall i | 1 <= i < |ts| :: ts[i] == rest[i - 1];
  }

  /** The iterator consumes its whole input: after the last term the
      content is empty, and the empty content yields no term. */
  lemma NextTokenOnExhausted(cc: Classes)
    ensures NextToken(cc, []).token.None?
    ensures NextToken(cc, []).content == []
  {
  }

  /** `trim_left` drops exactly a leading run of whitespace that is
      followed by the end or by a character that is not whitespace. */
  lemma {:induction false} TrimLeftSkips(cc: Classes, ws: seq<char>, s: seq<char>)
    requires All(ws, cc.isWhitespace)
    requires s == [] || !cc.isWhitespace(s[0])
    ensures TrimLeft(cc, ws + s) == s
    decreases |ws|
  {
    if ws == [] {
      assert ws + s == s;
    } else {
      assert (ws + s)[1..] == ws[1..] + s;
      TrimLeftSkips(cc, ws[1..], s);
    }
  }

  /** A word of alphabetic characters, after whitespace and before
      whitespace or the end, is exactly one term: the word upper-cased. */
  lemma NextTokenWord(cc: Classes, ws: seq<char>, w: seq<char>, rest: seq<char>)
    requires cc.Valid()
    requires All(ws, cc.isWhitespace)
    requires w != [] && All(w, cc.isAlphabetic)
    requires rest == [] || cc.isWhitespace(rest[0])
    ensures NextToken(cc, ws + w + rest) == Step(Some(Lexeme(UpperAll(w), w)), rest)
  {
    var content := ws + w + rest;
    assert content == ws + (w + rest);
    assert (w + rest)[0] == w[0];
    TrimLeftSkips(cc, ws, w + rest);
    NextTokenClassifies(cc, content);
    var r := NextToken(cc, content);
    SameRun(r.token.value.raw, r.content, w, rest, cc.IsAlphanumeric);
  }

  /** Where two splits of one sequence differ in length, the part after
      the shorter prefix starts with a character of the longer prefix. */
  lemma FirstAfter(a: seq<char>, b: seq<char>, w: seq<char>, rest: seq<char>)
    requires a + b == w + rest
    ensures |a| < |w| ==> |b| > 0 && b[0] == w[|a|]
    ensures |a| > |w| ==> |rest| > 0 && rest[0] == a[|w|]
  {
    if |a| < |w| {
      assert (a + b)[|a|] == b[0];
      assert (w + rest)[|a|] == w[|a|];
    } else if |a| > |w| {
      assert (a + b)[|w|] == a[|w|];
      assert (w + rest)[|w|] == rest[0];
    }
  }

  /** Two splits of one sequence into a maximal `p`-run and the rest are
      the same split. */
  lemma SameRun(a: seq<char>, b: seq<char>, w: seq<char>, rest: seq<char>, p: char -> bool)
    requires a + b == w + rest
    requires All(a, p)
    requires All(w, p)
    requires b == [] || !p(b[0])
    requires rest == [] || !p(rest[0])
    ensures a == w && b == rest
  {
    FirstAfter(a, b, w, rest);
    assert |a| == |w|;
    assert a == (a + b)[..|w|] == w;
    assert b == (a + b)[|w|..] == rest;
  }

  /** Tokens of `lead + w + rest` for a word `w` after `lead`, either
      nothing or one space. */
  lemma WordThen(cc: Classes, lead: seq<char>, w: seq<char>, rest: seq<char>)
    requires cc.Valid() && cc.isWhitespace(' ')
    requires lead == [] || lead == " "
    requires w != [] && All(w, cc.isAlphabetic)
    requires rest == [] || cc.isWhitespace(rest[0])
    ensures Tokens(cc, lead + w + rest) == [UpperAll(w)] + Tokens(cc, rest)
  {
    NextTokenWord(cc, lead, w, rest);
    TokensStep(cc, lead + w + rest);
  }

  lemma TokensOfNothing(cc: Classes)
    ensures Tokens(cc, []) == []
  {
    NextTokenOnExhausted(cc);
    TokensStep(cc, []);
  }

  /** Alphabetic words after `lead` and separated by single spaces are the
      words upper-cased, one term each: for one, two and three words. */
  lemma OneWord(cc: Classes, lead: seq<char>, w: seq<char>)
    requires cc.Valid() && cc.isWhitespace(' ')
    requires lead == [] || lead == " "
    requires w != [] && All(w, cc.isAlphabetic)
    ensures Tokens(cc, lead + w) == [UpperAll(w)]
  {
    TokensOfNothing(cc);
    assert lead + w == lead + w + [];
    WordThen(cc, lead, w, []);
  }

  lemma TwoWords(cc: Classes, lead: seq<char>, w1: seq<char>, w2: seq<char>)
    requires cc.Valid() && cc.isWhitespace(' ')
    requires lead == [] || lead == " "
    requires w1 != [] && All(w1, cc.isAlphabetic)
    requires w2 != [] && All(w2, cc.isAlphabetic)
    ensures Tokens(cc, lead + w1 + " " + w2) == [UpperAll(w1), UpperAll(w2)]
  {
    var rest := " " + w2;
    assert rest[0] == ' ';
    assert lead + w1 + " " + w2 == lead + w1 + rest;
    OneWord(cc, " ", w2);
    assert Tokens(cc, rest) == [UpperAll(w2)];
    WordThen(cc, lead, w1, rest);
    assert Tokens(cc, lead + w1 + rest) == [UpperAll(w1)] + [UpperAll(w2)];
  }

  /** Re-bracketing: the text after the first word, taken as one piece. */
  lemma SplitFirstWord(w1: seq<char>, w2: seq<char>, w3: seq<char>)
    ensures w1 + " " + w2 + " " + w3 == [] + w1 + (" " + w2 + " " + w3)
  {
    assert [] + w1 == w1;
  }

  lemma ThreeWords(cc: Classes, w1: seq<char>, w2: seq<char>, w3: seq<char>)
    requires cc.Valid() && cc.isWhitespace(' ')
    requires w1 != [] && All(w1, cc.isAlphabetic)
    requires w2 != [] && All(w2, cc.isAlphabetic)
    requires w3 != [] && All(w3, cc.isAlphabetic)
    ensures Tokens(cc, w1 + " " + w2 + " " + w3) == [UpperAll(w1), UpperAll(w2), UpperAll(w3)]
  {
    var rest := " " + w2 + " " + w3;
    assert rest[0] == ' ';
    SplitFirstWord(w1, w2, w3);
    var u1, u23 := UpperAll(w1), [UpperAll(w2), UpperAll(w3)];
    TwoWords(cc, " ", w2, w3);
    assert Tokens(cc, rest) == u23;
    WordThen(cc, [], w1, rest);
    assert Tokens(cc, [] + w1 + rest) == [u1] + u23;
  }
}
