/** One hand-written matcher per regular expression of `patterns`, and the
    global scan that `regex.exec` performs with the `g` flag: try the
    pattern at the current index, and on a match emit a token and resume at
    its end, otherwise move one character on. */
module Scanners {
  import opened Results
  import opened Lexicon

  /** `\b(if|else|...|variable)\b`: the alternatives are tried in order and
      an alternative only counts when a word boundary follows it. */
  function MatchKeyword(s: string, p: nat): (r: Option<nat>)
    requires p < |s|
    ensures r.Some? ==> p < r.value <= |s| && IsLetter(s[p])
  {
    if Boundary(s, p) then TryAlternatives(s, p, Keywords) else None
  }

  function TryAlternatives(s: string, p: nat, alts: seq<string>): (r: Option<nat>)
    requires p <= |s|
    requires forall i :: 0 <= i < |alts| ==> alts[i] != "" && IsLetter(alts[i][0])
    ensures r.Some? ==> p < r.value <= |s| && IsLetter(s[p])
  {
    if alts == [] then None
    else
      var w := alts[0];
      if p + |w| <= |s| && s[p..p + |w|] == w && Boundary(s, p + |w|) then Some(p + |w|)
      else TryAlternatives(s, p, alts[1..])
  }

  /** `[+\-*\/=<>!]+`, greedy. */
  function MatchOperator(s: string, p: nat): (r: Option<nat>)
    requires p < |s|
    ensures r.Some? <==> IsOperatorChar(s[p])
    ensures r.Some? ==> p < r.value <= |s| && (r.value == |s| || !IsOperatorChar(s[r.value]))
    ensures r.Some? ==> forall i :: p <= i < r.value ==> IsOperatorChar(s[i])
  {
    if IsOperatorChar(s[p]) then Some(RunEnd(s, p, IsOperatorChar)) else None
  }

  /** `["'\`].*?["'\`]`: after the opening quote the lazy `.*?` stops at the
      first quote character of any of the three kinds; `.` does not cross a
      line terminator. */
  function MatchQuoted(s: string, p: nat): (r: Option<nat>)
    requires p < |s|
    ensures r.Some? ==> IsQuote(s[p]) && p + 2 <= r.value <= |s| && IsQuote(s[r.value - 1])
    ensures r.Some? ==> forall i :: p < i < r.value - 1 ==> !IsQuote(s[i]) && !IsLineTerminator(s[i])
  {
    if IsQuote(s[p]) then CloseQuote(s, p + 1) else None
  }

  /** The end of the lazy `.*?["'\`]` that starts at `k`. */
  function CloseQuote(s: string, k: nat): (r: Option<nat>)
    requires k <= |s|
    ensures r.Some? ==> k < r.value <= |s| && IsQuote(s[r.value - 1])
    ensures r.Some? ==> forall i :: k <= i < r.value - 1 ==> !IsQuote(s[i]) && !IsLineTerminator(s[i])
    ensures r.None? ==> forall i :: k <= i < |s| && IsQuote(s[i]) ==> exists j :: k <= j < i && IsLineTerminator(s[j])
    decreases |s| - k
  {
    if k == |s| then None
    else if IsQuote(s[k]) then Some(k + 1)
    else if IsLineTerminator(s[k]) then None
    else CloseQuote(s, k + 1)
  }

  /** `\b\d+(\.\d+)?\b`: the fraction is taken when it is followed by a word
      boundary; otherwise the regex backtracks to the integer part alone,
      which needs a boundary of its own. */
  function MatchNumber(s: string, p: nat): (r: Option<nat>)
    requires p < |s|
    ensures r.Some? ==> WordStart(s, p) && IsDigit(s[p]) && p < r.value <= |s|
    ensures r.Some? ==> r.value == |s| || !IsWordChar(s[r.value])
    ensures r.Some? ==> forall i :: p <= i < r.value ==> IsDigit(s[i]) || s[i] == '.'
  {
    if Boundary(s, p) && IsDigit(s[p]) then
      var q := RunEnd(s, p, IsDigit);
      if q + 1 < |s| && s[q] == '.' && IsDigit(s[q + 1]) && Boundary(s, RunEnd(s, q + 1, IsDigit)) then
        Some(RunEnd(s, q + 1, IsDigit))
      else if Boundary(s, q) then Some(q)
      else None
    else None
  }

  /** A run of digits, possibly followed by `.` and a second run of digits:
      the text `\d+(\.\d+)?` accepts. */
  predicate NumberShape(t: string) {
    || AllDigits(t)
    || exists k :: 0 < k < |t| - 1 && t[k] == '.' && AllDigits(t[..k]) && AllDigits(t[k + 1..])
  }

  predicate AllDigits(t: string) {
    t != [] && forall i :: 0 <= i < |t| ==> IsDigit(t[i])
  }

  /** `MatchNumber` finds exactly the matches of `\b\d+(\.\d+)?\b` at `p`:
      its result is one, and no match at `p` ends later. */
  lemma NumberMatchIsLongest(s: string, p: nat)
    requires p < |s|
    ensures MatchNumber(s, p).Some? ==>
      var e := MatchNumber(s, p).value;
      Boundary(s, p) && NumberShape(s[p..e]) && Boundary(s, e)
    ensures forall e :: p < e <= |s| && Boundary(s, p) && NumberShape(s[p..e]) && Boundary(s, e) ==>
      MatchNumber(s, p).Some? && e <= MatchNumber(s, p).value
  {
    if MatchNumber(s, p).Some? {
      NumberMatchSound(s, p);
    }
    forall e | p < e <= |s| && Boundary(s, p) && NumberShape(s[p..e]) && Boundary(s, e)
      ensures MatchNumber(s, p).Some? && e <= MatchNumber(s, p).value
    {
      NumberMatchMaximal(s, p, e);
    }
  }

  lemma NumberMatchSound(s: string, p: nat)
    requires p < |s| && MatchNumber(s, p).Some?
    ensures var e := MatchNumber(s, p).value;
      Boundary(s, p) && NumberShape(s[p..e]) && Boundary(s, e)
  {
    var q := RunEnd(s, p, IsDigit);
    var e := MatchNumber(s, p).value;
    assert AllDigits(s[p..q]);
    if e != q {
      var f := RunEnd(s, q + 1, IsDigit);
      assert e == f;
      var t := s[p..e];
      var k := q - p;
      assert t[k] == '.' && t[..k] == s[p..q] && t[k + 1..] == s[q + 1..f];
      assert AllDigits(s[q + 1..f]);
    }
  }

  lemma NumberMatchMaximal(s: string, p: nat, e: nat)
    requires p < e <= |s| && Boundary(s, p) && NumberShape(s[p..e]) && Boundary(s, e)
    ensures MatchNumber(s, p).Some? && e <= MatchNumber(s, p).value
  {
    if AllDigits(s[p..e]) {
      IntegerMatch(s, p, e);
    } else {
      var t := s[p..e];
      var k :| 0 < k < |t| - 1 && t[k] == '.' && AllDigits(t[..k]) && AllDigits(t[k + 1..]);
      SplitFraction(s, p, k, e);
      FractionMatch(s, p, p + k, e);
    }
  }

  /** Digits between two boundaries: the integer part is matched, and the
      match ends there or later. */
  lemma IntegerMatch(s: string, p: nat, e: nat)
    requires p < e <= |s| && Boundary(s, p) && AllDigits(s[p..e]) && Boundary(s, e)
    ensures MatchNumber(s, p).Some? && e <= MatchNumber(s, p).value
  {
    DigitRunEnds(s, p, e);
    assert IsDigit(s[p]) by { assert s[p..e][0] == s[p]; }
  }

  lemma SplitFraction(s: string, p: nat, k: nat, e: nat)
    requires p + k + 1 < e <= |s|
    ensures s[p..e][..k] == s[p..p + k] && s[p..e][k + 1..] == s[p + k + 1..e] && s[p..e][k] == s[p + k]
  {
  }

  /** Digits, `.` at `q`, digits, between two boundaries: the fraction is taken. */
  lemma FractionMatch(s: string, p: nat, q: nat, e: nat)
    requires p < q && q + 1 < e <= |s| && Boundary(s, p) && Boundary(s, e)
    requires AllDigits(s[p..q]) && s[q] == '.' && AllDigits(s[q + 1..e])
    ensures MatchNumber(s, p) == Some(e)
  {
    DigitRunStops(s, p, q);
    DigitRunEnds(s, q + 1, e);
    assert IsDigit(s[p]) by { assert s[p..q][0] == s[p]; }
    assert IsDigit(s[q + 1]) by { assert s[q + 1..e][0] == s[q + 1]; }
  }

  /** A digit run that a word boundary ends is the whole run. */
  lemma DigitRunEnds(s: string, i: nat, j: nat)
    requires i < j <= |s| && AllDigits(s[i..j]) && Boundary(s, j)
    ensures RunEnd(s, i, IsDigit) == j
  {
    DigitsWithin(s, i, j);
    assert IsDigit(s[j - 1]) by { assert s[i..j][j - 1 - i] == s[j - 1]; }
  }

  /** A digit run that a non-digit ends is the whole run. */
  lemma DigitRunStops(s: string, i: nat, j: nat)
    requires i < j < |s| && AllDigits(s[i..j]) && !IsDigit(s[j])
    ensures RunEnd(s, i, IsDigit) == j
  {
    DigitsWithin(s, i, j);
  }

  /** A digit run inside `[i, j)` reaches at least `j`. */
  lemma DigitsWithin(s: string, i: nat, j: nat)
    requires i < j <= |s| && AllDigits(s[i..j])
    ensures j <= RunEnd(s, i, IsDigit)
    decreases j - i
  {
    assert IsDigit(s[i]) by { assert s[i..j][0] == s[i]; }
    if i + 1 < j {
      assert s[i + 1..j] == s[i..j][1..];
      DigitsWithin(s, i + 1, j);
    }
  }

  /** `(["'\`].*?["'\`])|\b\d+(\.\d+)?\b`: the quoted alternative first. */
  function MatchLiteral(s: string, p: nat): (r: Option<nat>)
    requires p < |s|
    ensures r.Some? ==> p < r.value <= |s| && (IsQuote(s[p]) || IsDigit(s[p]))
    ensures IsQuote(s[p]) ==> r == MatchQuoted(s, p)
    ensures !IsQuote(s[p]) ==> r == MatchNumber(s, p)
  {
    match MatchQuoted(s, p)
    case Some(e) => Some(e)
    case None => MatchNumber(s, p)
  }

  /** `[()[\]{}]` */
  function MatchBracket(s: string, p: nat): (r: Option<nat>)
    requires p < |s|
    ensures r.Some? <==> IsBracket(s[p])
    ensures r.Some? ==> r.value == p + 1
  {
    if IsBracket(s[p]) then Some(p + 1) else None
  }

  /** `\b[a-zA-Z_]\w*\b`: the greedy `\w*` always ends on a boundary. */
  function MatchIdentifier(s: string, p: nat): (r: Option<nat>)
    requires p < |s|
    ensures r.Some? <==> WordStart(s, p) && (IsLetter(s[p]) || s[p] == '_')
    ensures r.Some? ==> r.value == WordEnd(s, p)
  {
    if Boundary(s, p) && (IsLetter(s[p]) || s[p] == '_') then
      var q := WordEnd(s, p + 1);
      if Boundary(s, q) then Some(q) else None
    else None
  }

  /** The characters a match of each category can start with. */
  predicate CanStart(k: TokenType, c: char) {
    match k
    case Keyword => IsLetter(c)
    case Operator => IsOperatorChar(c)
    case Literal => IsQuote(c) || IsDigit(c)
    case Parantez => IsBracket(c)
    case Tanimlayici => IsLetter(c) || c == '_'
  }

  /** The regex of category `k` tried at index `p`: the end of its match, if any. */
  function MatchAt(k: TokenType, s: string, p: nat): (r: Option<nat>)
    requires p < |s|
    ensures r.Some? ==> p < r.value <= |s| && CanStart(k, s[p])
  {
    match k
    case Keyword => MatchKeyword(s, p)
    case Operator => MatchOperator(s, p)
    case Literal => MatchLiteral(s, p)
    case Parantez => MatchBracket(s, p)
    case Tanimlayici => MatchIdentifier(s, p)
  }

  /** All matches of category `k` from index `from` on, as `regex.exec`
      finds them one after another. */
  function Scan(k: TokenType, s: string, from: nat): (r: seq<Token>)
    ensures from <= |s| ==> |r| <= |s| - from
    decreases |s| - from
  {
    if from >= |s| then []
    else
      match MatchAt(k, s, from)
      case Some(e) => [Token(from, e, s[from..e], k)] + Scan(k, s, e)
      case None => Scan(k, s, from + 1)
  }

  /** Each token of a scan is a match of its category: it starts at or
      after `from`, spans `s`, and ends where the pattern's match ends. */
  lemma {:induction false} ScanTokens(k: TokenType, s: string, from: nat)
    ensures forall t :: t in Scan(k, s, from) ==>
      && from <= t.start < |s|
      && Spans(s, t)
      && t.kind == k
      && MatchAt(k, s, t.start) == Some(t.end)
    decreases |s| - from
  {
    if from < |s| {
      match MatchAt(k, s, from)
      case Some(e) => ScanTokens(k, s, e);
      case None => ScanTokens(k, s, from + 1);
    }
  }

  /** The matches of one scan are disjoint and in ascending order. */
  lemma {:induction false} ScanAscending(k: TokenType, s: string, from: nat)
    ensures Ascending(Scan(k, s, from))
    decreases |s| - from
  {
    if from < |s| {
      match MatchAt(k, s, from)
      case Some(e) =>
        ScanAscending(k, s, e);
        ScanTokens(k, s, e);
        AscendingCons(Token(from, e, s[from..e], k), Scan(k, s, e));
      case None =>
        ScanAscending(k, s, from + 1);
    }
  }

  /** No index from `from` on that the tokens leave uncovered has a match. */
  predicate MissesNoMatch(k: TokenType, s: string, from: nat, toks: seq<Token>) {
    forall p :: from <= p < |s| && !Covered(toks, p) ==> MatchAt(k, s, p).None?
  }

  /** The scan misses no match: every index it did not step over has none. */
  lemma {:induction false} ScanComplete(k: TokenType, s: string, from: nat)
    ensures MissesNoMatch(k, s, from, Scan(k, s, from))
    decreases |s| - from
  {
    if from < |s| {
      var m := MatchAt(k, s, from);
      if m.Some? {
        ScanComplete(k, s, m.value);
        ScanCompleteOnMatch(k, s, from, m.value);
      } else {
        ScanComplete(k, s, from + 1);
        ScanCompleteOnMiss(k, s, from);
      }
    }
  }

  lemma ScanCompleteOnMatch(k: TokenType, s: string, from: nat, e: nat)
    requires from < |s| && MatchAt(k, s, from) == Some(e)
    requires MissesNoMatch(k, s, e, Scan(k, s, e))
    ensures MissesNoMatch(k, s, from, Scan(k, s, from))
  {
    var rest := Scan(k, s, e);
    assert Scan(k, s, from) == [Token(from, e, s[from..e], k)] + rest;
    ScanStep(k, s, from, e, rest);
  }

  lemma ScanCompleteOnMiss(k: TokenType, s: string, from: nat)
    requires from < |s| && MatchAt(k, s, from).None?
    requires MissesNoMatch(k, s, from + 1, Scan(k, s, from + 1))
    ensures MissesNoMatch(k, s, from, Scan(k, s, from))
  {
    assert Scan(k, s, from) == Scan(k, s, from + 1);
  }

  /** One emitted match followed by the scan from its end leaves no
      uncovered index with a match. */
  lemma ScanStep(k: TokenType, s: string, from: nat, e: nat, rest: seq<Token>)
    requires from < e <= |s|
    requires MatchAt(k, s, from) == Some(e)
    requires MissesNoMatch(k, s, e, rest)
    ensures MissesNoMatch(k, s, from, [Token(from, e, s[from..e], k)] + rest)
  {
    var r := [Token(from, e, s[from..e], k)] + rest;
    forall p | from <= p < |s| && !Covered(r, p)
      ensures MatchAt(k, s, p).None?
    {
      assert !(r[0].start <= p < r[0].end);
      if Covered(rest, p) {
        CoveredTail(r[0], rest, p);
      }
    }
  }

  lemma CoveredTail(t: Token, rest: seq<Token>, p: int)
    requires Covered(rest, p)
    ensures Covered([t] + rest, p)
  {
    var i :| 0 <= i < |rest| && rest[i].start <= p < rest[i].end;
    assert ([t] + rest)[i + 1] == rest[i];
  }

  /** Candidates of the given categories, one full scan per category, in order. */
  function CandidatesFrom(s: string, kinds: seq<TokenType>): (r: seq<Token>)
    ensures |r| <= |kinds| * |s|
  {
    if kinds == [] then []
    else
      assert |kinds| * |s| == |s| + |kinds[1..]| * |s| by {
        assert |kinds| == 1 + |kinds[1..]|;
      }
      Scan(kinds[0], s, 0) + CandidatesFrom(s, kinds[1..])
  }

  /** Every match of every pattern, in `patterns` order: what `tokenize`
      collects before resolving overlaps. */
  function Candidates(s: string): (r: seq<Token>)
    ensures |r| <= 5 * |s|
  {
    CandidatesFrom(s, Patterns)
  }

  /** Each candidate is a match of one of the scanned categories. */
  lemma {:induction false} CandidateTokens(s: string, kinds: seq<TokenType>)
    ensures forall t :: t in CandidatesFrom(s, kinds) ==>
      && Spans(s, t)
      && t.kind in kinds
      && t.start < |s|
      && MatchAt(t.kind, s, t.start) == Some(t.end)
  {
    if kinds != [] {
      ScanTokens(kinds[0], s, 0);
      CandidateTokens(s, kinds[1..]);
    }
  }

  /** Every reserved word is a non-empty run of letters. */
  lemma KeywordsAreWords()
    ensures forall i :: 0 <= i < |Keywords| ==> Keywords[i] != ""
    ensures forall i, j :: 0 <= i < |Keywords| && 0 <= j < |Keywords[i]| ==> IsLetter(Keywords[i][j])
  {
  }

  /** With a boundary at `p`, a word-character alternative `w` followed by a
      boundary matches at `p` exactly when `w` is the whole word starting at `p`. */
  lemma AlternativeIsWholeWord(s: string, p: nat, w: string)
    requires p < |s| && Boundary(s, p)
    requires w != "" && forall j :: 0 <= j < |w| ==> IsLetter(w[j])
    ensures (p + |w| <= |s| && s[p..p + |w|] == w && Boundary(s, p + |w|))
        <==> (WordStart(s, p) && s[p..WordEnd(s, p)] == w)
  {
    var e := WordEnd(s, p);
    if p + |w| <= |s| && s[p..p + |w|] == w && Boundary(s, p + |w|) {
      assert s[p] == w[0];
      forall j | p <= j < p + |w| ensures IsWordChar(s[j]) {
        assert s[j] == w[j - p];
      }
      assert IsWordAt(s, p + |w| - 1);
      assert e == p + |w|;
    }
    if WordStart(s, p) && s[p..e] == w {
      assert IsWordAt(s, e - 1);
    }
  }

  lemma {:induction false} TryAlternativesIsWholeWord(s: string, p: nat, alts: seq<string>)
    requires p < |s| && Boundary(s, p)
    requires forall i :: 0 <= i < |alts| ==> alts[i] != "" && IsLetter(alts[i][0])
    requires forall i, j :: 0 <= i < |alts| && 0 <= j < |alts[i]| ==> IsLetter(alts[i][j])
    ensures TryAlternatives(s, p, alts)
         == if WordStart(s, p) && s[p..WordEnd(s, p)] in alts then Some(WordEnd(s, p)) else None
  {
    if alts != [] {
      AlternativeIsWholeWord(s, p, alts[0]);
      TryAlternativesIsWholeWord(s, p, alts[1..]);
      assert alts == [alts[0]] + alts[1..];
    }
  }

  /** The keyword pattern matches at `p` exactly when `p` starts a word that
      is, as a whole, a reserved word; the match spans that word. So `var`
      never matches inside `variable`. */
  lemma KeywordMatchIsWholeWord(s: string, p: nat)
    requires p < |s|
    ensures MatchKeyword(s, p)
         == if WordStart(s, p) && s[p..WordEnd(s, p)] in Keywords then Some(WordEnd(s, p)) else None
  {
    KeywordsAreWords();
    if Boundary(s, p) {
      TryAlternativesIsWholeWord(s, p, Keywords);
    }
  }

  /** A keyword match spans exactly the word it starts. */
  lemma KeywordMatchSpansWord(s: string, q: nat)
    requires q < |s| && MatchKeyword(s, q).Some?
    ensures WordStart(s, q) && MatchKeyword(s, q).value == WordEnd(s, q)
  {
    KeywordMatchIsWholeWord(s, q);
  }

  /** A reserved whole word is matched by the keyword pattern. */
  lemma ReservedWordMatches(s: string, p: nat)
    requires p < |s| && WordStart(s, p) && s[p..WordEnd(s, p)] in Keywords
    ensures MatchKeyword(s, p) == Some(WordEnd(s, p))
  {
    KeywordMatchIsWholeWord(s, p);
  }

  /** A category's scan covers every index where its pattern matches. */
  lemma ScanCovers(k: TokenType, s: string, p: nat)
    requires p < |s| && MatchAt(k, s, p).Some?
    ensures Covered(Scan(k, s, 0), p)
  {
    ScanComplete(k, s, 0);
  }

  /** No word starts strictly inside another word. */
  lemma NoWordStartInside(s: string, q: nat, p: nat)
    requires q <= |s| && q < p < WordEnd(s, q)
    ensures !WordStart(s, p)
  {
    assert IsWordChar(s[p - 1]);
  }

  /** The keyword scan emits a token for every whole word that is reserved. */
  lemma ScanFindsKeyword(s: string, p: nat)
    requires p < |s| && WordStart(s, p) && s[p..WordEnd(s, p)] in Keywords
    ensures Token(p, WordEnd(s, p), s[p..WordEnd(s, p)], Keyword) in Scan(Keyword, s, 0)
  {
    ReservedWordMatches(s, p);
    ScanFindsWordMatch(s, p);
  }

  lemma ScanFindsWordMatch(s: string, p: nat)
    requires p < |s| && WordStart(s, p) && MatchKeyword(s, p) == Some(WordEnd(s, p))
    ensures Token(p, WordEnd(s, p), s[p..WordEnd(s, p)], Keyword) in Scan(Keyword, s, 0)
  {
    var r := Scan(Keyword, s, 0);
    ScanCovers(Keyword, s, p);
    ScanTokens(Keyword, s, 0);
    var i :| 0 <= i < |r| && r[i].start <= p < r[i].end;
    var t := r[i];
    assert MatchKeyword(s, t.start) == Some(t.end);
    KeywordMatchSpansWord(s, t.start);
    if t.start < p {
      NoWordStartInside(s, t.start, p);
    } else {
      assert t.start == p && t.end == WordEnd(s, p);
      assert t.text == s[p..WordEnd(s, p)] && t.kind == Keyword;
    }
  }

  /** Within the candidates of strictly ranked categories, two tokens with
      the same span come in rank order: a category's own matches never share
      a span, and the categories are scanned one after another. */
  lemma {:induction false} CandidatesSpanOrder(s: string, kinds: seq<TokenType>)
    requires forall a, b :: 0 <= a < b < |kinds| ==> Rank(kinds[a]) < Rank(kinds[b])
    ensures RankedOnTies(CandidatesFrom(s, kinds))
  {
    if kinds != [] {
      var a := Scan(kinds[0], s, 0);
      var b := CandidatesFrom(s, kinds[1..]);
      var c := CandidatesFrom(s, kinds);
      assert c == a + b;
      CandidatesSpanOrder(s, kinds[1..]);
      ScanTokens(kinds[0], s, 0);
      ScanAscending(kinds[0], s, 0);
      CandidateTokens(s, kinds[1..]);
      forall i, j | 0 <= i < j < |c| && c[i].start == c[j].start && c[i].end == c[j].end
        ensures Rank(c[i].kind) < Rank(c[j].kind)
      {
        if j < |a| {
          assert false;
        } else if i < |a| {
          assert c[j] == b[j - |a|];
          assert c[j].kind in kinds[1..];
          var m :| 0 <= m < |kinds[1..]| && kinds[1..][m] == c[j].kind;
          assert kinds[1..][m] == kinds[m + 1];
        } else {
          assert c[i] == b[i - |a|] && c[j] == b[j - |a|];
        }
      }
    }
  }

  /** A candidate comes from the scan of its own category. */
  lemma {:induction false} CandidateFromOwnScan(s: string, kinds: seq<TokenType>, t: Token)
    requires t in CandidatesFrom(s, kinds)
    ensures t in Scan(t.kind, s, 0)
  {
    ScanTokens(kinds[0], s, 0);
    if t !in Scan(kinds[0], s, 0) {
      CandidateFromOwnScan(s, kinds[1..], t);
    }
  }

  /** Every token of a listed category's scan is a candidate. */
  lemma {:induction false} ScanInCandidates(s: string, kinds: seq<TokenType>, t: Token)
    requires t in Scan(t.kind, s, 0) && t.kind in kinds
    ensures t in CandidatesFrom(s, kinds)
  {
    if kinds[0] != t.kind {
      ScanInCandidates(s, kinds[1..], t);
    }
  }

  /** Operator matches start where a run of operator characters starts:
      the scan takes each run whole, so `==` is one match, never two. */
  lemma {:induction false} OperatorScanTakesWholeRuns(s: string, from: nat)
    requires from == 0 || from >= |s| || !IsOperatorChar(s[from - 1]) || !IsOperatorChar(s[from])
    ensures forall t :: t in Scan(Operator, s, from) && 0 < t.start <= |s| ==> !IsOperatorChar(s[t.start - 1])
    decreases |s| - from
  {
    if from < |s| {
      var m := MatchAt(Operator, s, from);
      if m.Some? {
        OperatorScanTakesWholeRuns(s, m.value);
        assert Scan(Operator, s, from) == [Token(from, m.value, s[from..m.value], Operator)] + Scan(Operator, s, m.value);
      } else {
        OperatorScanTakesWholeRuns(s, from + 1);
      }
    }
  }
}
