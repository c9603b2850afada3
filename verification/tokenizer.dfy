/** `tokenize`: every pattern's matches, sorted, then reduced to a
    non-overlapping left-to-right sequence. */
module Tokenizer {
  import opened Results
  import opened Lexicon
  import opened Scanners
  import opened Resolver

  /** The token sequence of `code`. */
  function Tokenize(code: string): (r: seq<Token>)
    ensures Layout(code, r)
  {
    var sorted := Sort(Candidates(code));
    SortedSpans(code);
    SelectAscending(sorted, 0);
    SelectFromInput(sorted, 0);
    Select(sorted, 0)
  }

  /** The sorted candidates are the candidates, span `code`, are non-empty
      and are sorted by start. */
  lemma SortedSpans(code: string)
    ensures forall t :: t in Sort(Candidates(code)) <==> t in Candidates(code)
    ensures forall t :: t in Sort(Candidates(code)) ==> Spans(code, t)
    ensures NonEmptySpans(Sort(Candidates(code)))
    ensures SortedByStart(Sort(Candidates(code)))
  {
    var c := Candidates(code);
    var sorted := Sort(c);
    SortPermutes(c);
    SortSorted(c);
    CandidateTokens(code, Patterns);
    forall t ensures t in sorted <==> t in c {
      assert t in sorted <==> t in multiset(sorted);
    }
    forall i | 0 <= i < |sorted| ensures sorted[i].start < sorted[i].end {
      assert sorted[i] in sorted;
    }
  }

  /** Each kept token is a candidate and spans `code`. */
  lemma TokensAreCandidates(code: string)
    ensures forall t :: t in Tokenize(code) ==> t in Candidates(code) && Spans(code, t)
  {
    SortedSpans(code);
    SelectFromInput(Sort(Candidates(code)), 0);
  }

  /** The kept tokens are the sorted candidates with some left out. */
  lemma TokenizeIsSubsequence(code: string)
    ensures IsSubsequence(Tokenize(code), Sort(Candidates(code)))
  {
    SelectIsSubsequence(Sort(Candidates(code)), 0);
  }

  /** A candidate is discarded only when its start lies inside a kept token. */
  lemma TokenizeCovers(code: string)
    ensures forall c :: c in Candidates(code) ==> c in Tokenize(code) || Covered(Tokenize(code), c.start)
  {
    var sorted := Sort(Candidates(code));
    SortedSpans(code);
    SelectCovers(sorted, 0);
  }

  /** Among candidates starting where a kept token starts, none is longer. */
  lemma TokenizeKeepsLongest(code: string)
    ensures forall t, c :: t in Tokenize(code) && c in Candidates(code) && c.start == t.start ==> c.end <= t.end
  {
    var sorted := Sort(Candidates(code));
    SortedSpans(code);
    SortSorted(Candidates(code));
    SelectKeepsLongest(sorted, 0);
  }

  /** On an identical span the candidate of the earlier pattern is kept. */
  lemma TokenizePriority(code: string)
    ensures forall t, c :: (t in Tokenize(code) && c in Candidates(code) && c.start == t.start && c.end == t.end) ==> Rank(t.kind) <= Rank(c.kind)
  {
    forall t, c | t in Tokenize(code) && c in Candidates(code) && c.start == t.start && c.end == t.end
      ensures Rank(t.kind) <= Rank(c.kind)
    {
      PriorityOn(code, t, c);
    }
  }

  /** The candidates are ranked on ties: on a shared span, the earlier
      pattern comes first. */
  lemma CandidatesRanked(code: string)
    ensures RankedOnTies(Candidates(code))
  {
    assert forall a, b :: 0 <= a < b < |Patterns| ==> Rank(Patterns[a]) < Rank(Patterns[b]);
    CandidatesSpanOrder(code, Patterns);
  }

  lemma PriorityOn(code: string, t: Token, c: Token)
    requires t in Tokenize(code) && c in Candidates(code) && c.start == t.start && c.end == t.end
    ensures Rank(t.kind) <= Rank(c.kind)
  {
    var cands := Candidates(code);
    SortedSpans(code);
    SelectedHeadsSpan(Sort(cands), 0, t);
    SortIsStable(cands, t.start, t.end);
    CandidatesRanked(code);
    SameSpanHeadRank(cands, t.start, t.end);
  }

  /** A reserved word never comes out as an identifier: `variable` is a
      keyword token, not a `tanımlayıcı` one. */
  lemma KeywordsNeverIdentifiers(code: string)
    ensures forall t :: t in Tokenize(code) && t.kind == Tanimlayici ==> t.text !in Keywords
  {
    TokensAreCandidates(code);
    CandidateTokens(code, Patterns);
    forall t | t in Tokenize(code) && t.kind == Tanimlayici
      ensures t.text !in Keywords
    {
      assert MatchAt(Tanimlayici, code, t.start) == Some(t.end);
      if t.text in Keywords {
        ScanFindsKeyword(code, t.start);
        var k := Token(t.start, t.end, t.text, Keyword);
        ScanInCandidates(code, Patterns, k);
        PriorityOn(code, t, k);
        assert false;
      }
    }
  }

  /** No pattern matches `;`, so no token is `;`. */
  lemma NoSemicolonTokens(code: string)
    ensures forall t :: t in Tokenize(code) ==> t.text != ";"
  {
    TokensAreCandidates(code);
    forall t | t in Tokenize(code) ensures t.text != ";" {
      CandidateNotSemicolon(code, t);
    }
  }

  lemma CandidateNotSemicolon(code: string, t: Token)
    requires t in Candidates(code)
    ensures t.text != ";"
  {
    CandidateTokens(code, Patterns);
    assert CanStart(t.kind, code[t.start]);
    assert t.text[0] == code[t.start];
  }

  /** Operator tokens are whole runs of operator characters: `==` is one
      token, never two. */
  lemma OperatorTokensAreWholeRuns(code: string)
    ensures forall t :: t in Tokenize(code) && t.kind == Operator ==>
      && (forall i :: t.start <= i < t.end ==> IsOperatorChar(code[i]))
      && (t.end == |code| || !IsOperatorChar(code[t.end]))
      && (t.start == 0 || !IsOperatorChar(code[t.start - 1]))
  {
    TokensAreCandidates(code);
    CandidateTokens(code, Patterns);
    forall t | t in Tokenize(code) && t.kind == Operator
      ensures t.start == 0 || !IsOperatorChar(code[t.start - 1])
    {
      CandidateFromOwnScan(code, Patterns, t);
      OperatorScanTakesWholeRuns(code, 0);
    }
  }
}
