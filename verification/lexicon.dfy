/** The vocabulary shared by the tokenizer, the parser and the renderer:
    token categories, tokens, and the ASCII character classes the
    JavaScript regular expressions use (no `u` flag, so `\w`, `\d` and `\b`
    are ASCII-only). */
module Lexicon {

  /** The five categories of `patterns`, in priority order. */
  datatype TokenType = Keyword | Operator | Literal | Parantez | Tanimlayici

  /** A classified span `[start, end)` of the source together with its text. */
  datatype Token = Token(start: nat, end: nat, text: string, kind: TokenType)

  /** The order in which the patterns are tried; an earlier pattern wins an
      exact tie. */
  const Patterns: seq<TokenType> := [Keyword, Operator, Literal, Parantez, Tanimlayici]

  /** Position of a category in `Patterns`. */
  function Rank(k: TokenType): (n: nat)
    ensures n < |Patterns| && Patterns[n] == k
  {
    match k
    case Keyword => 0
    case Operator => 1
    case Literal => 2
    case Parantez => 3
    case Tanimlayici => 4
  }

  /** The category name the renderer uses as a CSS class. */
  function ClassName(k: TokenType): string {
    match k
    case Keyword => "keyword"
    case Operator => "operator"
    case Literal => "literal"
    case Parantez => "parantez"
    case Tanimlayici => "tan\U{131}mlay\U{131}c\U{131}"
  }

  /** The reserved words of the keyword alternation, in the order they are tried. */
  const Keywords: seq<string> :=
    ["if", "else", "for", "while", "function", "return", "let", "const", "var", "class", "variable"]

  predicate IsDigit(c: char) {
    '0' <= c <= '9'
  }

  predicate IsLetter(c: char) {
    ('a' <= c <= 'z') || ('A' <= c <= 'Z')
  }

  /** `\w` */
  predicate IsWordChar(c: char) {
    IsLetter(c) || IsDigit(c) || c == '_'
  }

  /** `[+\-*\/=<>!]` */
  predicate IsOperatorChar(c: char) {
    c == '+' || c == '-' || c == '*' || c == '/' || c == '=' || c == '<' || c == '>' || c == '!'
  }

  /** `["'\`]` */
  predicate IsQuote(c: char) {
    c == '"' || c == '\'' || c == '`'
  }

  /** `[()[\]{}]` */
  predicate IsBracket(c: char) {
    c == '(' || c == ')' || c == '[' || c == ']' || c == '{' || c == '}'
  }

  /** The characters `.` refuses when the `s` flag is absent. */
  predicate IsLineTerminator(c: char) {
    c == '\n' || c == '\r' || c == '\U{2028}' || c == '\U{2029}'
  }

  /** Whether index `i` holds a word character; positions outside the string do not. */
  predicate IsWordAt(s: string, i: int) {
    0 <= i < |s| && IsWordChar(s[i])
  }

  /** `\b` at position `i` (between `s[i-1]` and `s[i]`). */
  predicate Boundary(s: string, i: int) {
    IsWordAt(s, i - 1) != IsWordAt(s, i)
  }

  /** `i` starts a maximal run of word characters. */
  predicate WordStart(s: string, i: int) {
    IsWordAt(s, i) && !IsWordAt(s, i - 1)
  }

  /** The end of the longest run of characters satisfying `p` that starts at `i`. */
  function RunEnd(s: string, i: nat, p: char -> bool): (j: nat)
    requires i <= |s|
    ensures i <= j <= |s|
    ensures forall k :: i <= k < j ==> p(s[k])
    ensures j == |s| || !p(s[j])
    decreases |s| - i
  {
    if i < |s| && p(s[i]) then RunEnd(s, i + 1, p) else i
  }

  /** End of the word run starting at `i`. */
  function WordEnd(s: string, i: nat): (j: nat)
    requires i <= |s|
    ensures i <= j <= |s|
    ensures forall k :: i <= k < j ==> IsWordChar(s[k])
    ensures j == |s| || !IsWordChar(s[j])
  {
    RunEnd(s, i, IsWordChar)
  }

  /** A token whose span lies in `code` and whose text is that span. */
  predicate Spans(code: string, t: Token) {
    t.start < t.end <= |code| && t.text == code[t.start..t.end]
  }

  /** Index `p` lies inside one of the tokens' spans. */
  predicate Covered(toks: seq<Token>, p: int) {
    exists i :: 0 <= i < |toks| && toks[i].start <= p < toks[i].end
  }

  /** Every token covers at least one character. */
  predicate NonEmptySpans(toks: seq<Token>) {
    forall i :: 0 <= i < |toks| ==> toks[i].start < toks[i].end
  }

  /** Each token ends at or before every later token starts. */
  predicate Ascending(toks: seq<Token>) {
    forall i, j :: 0 <= i < j < |toks| ==> toks[i].end <= toks[j].start
  }

  /** Prepending a token that ends before everything else starts keeps the
      sequence ascending. */
  lemma AscendingCons(t: Token, rest: seq<Token>)
    requires Ascending(rest)
    requires forall j :: 0 <= j < |rest| ==> t.end <= rest[j].start
    ensures Ascending([t] + rest)
  {
    var r := [t] + rest;
    forall i, j | 0 <= i < j < |r| ensures r[i].end <= r[j].start {
      if i == 0 {
        assert r[j] == rest[j - 1];
      } else {
        assert r[i] == rest[i - 1] && r[j] == rest[j - 1];
      }
    }
  }

  /** Of two tokens with the same span, the earlier has the lower rank. */
  predicate RankedOnTies(toks: seq<Token>) {
    forall i, j :: 0 <= i < j < |toks| && toks[i].start == toks[j].start && toks[i].end == toks[j].end
      ==> Rank(toks[i].kind) < Rank(toks[j].kind)
  }

  /** Every token spans `code`, and the spans are pairwise disjoint and
      ascending: the shape of a token sequence. */
  predicate Layout(code: string, toks: seq<Token>) {
    && (forall i :: 0 <= i < |toks| ==> Spans(code, toks[i]))
    && Ascending(toks)
  }
}
