/** `calistir`: tokenize, parse, and classify the outcome. Only a
    `ParseError` that carries a token is located in the editor; every other
    failure is reported as an unknown error. */
module Reporting {
  import opened Results
  import opened Lexicon
  import opened Tokenizer
  import opened Parser
  import opened Highlighting

  /** The three outcomes `calistir` distinguishes. */
  datatype Outcome =
    | NoSyntaxError
    | Located(msg: Message, token: Token)
    | Unknown(failure: Failure)

  /** The `try`/`catch` of `calistir`: `e instanceof ParseError && e.token`. */
  function Classify(r: Step): (o: Outcome)
    ensures o.NoSyntaxError? <==> r.Success?
    ensures o.Located? <==> r.Failure? && r.error.ParseError? && r.error.token.Some?
    ensures o.Located? ==> r.error == ParseError(o.msg, Some(o.token))
    ensures o.Unknown? ==> r == Failure(o.failure)
  {
    match r
    case Success(_) => NoSyntaxError
    case Failure(ParseError(m, Some(t))) => Located(m, t)
    case Failure(f) => Unknown(f)
  }

  /** What `calistir` decides for the editor's text. */
  function Run(code: string): Outcome {
    Classify(Parse(Tokenize(code)))
  }

  /** The markup `calistir` puts in the editor on a located error. */
  function ErrorView(code: string): (r: Option<string>)
    ensures r.Some? <==> Run(code).Located?
  {
    match Run(code)
    case Located(_, t) => Some(HighlightWithError(code, Tokenize(code), t.start, t.end))
    case _ => None
  }

  /** A located error names one of the tokens of the code. */
  lemma LocatedTokenIsToken(code: string)
    requires Run(code).Located?
    ensures Run(code).token in Tokenize(code)
    ensures Spans(code, Run(code).token)
  {
    var toks := Tokenize(code);
    var t := Run(code).token;
    var i :| 0 <= i < |toks| && toks[i] == t;
  }

  /** On disjoint non-empty spans, a span identifies its token. */
  lemma SpanIdentifiesToken(toks: seq<Token>, i: nat, j: nat)
    requires Ascending(toks) && NonEmptySpans(toks)
    requires i < |toks| && j < |toks|
    requires toks[i].start == toks[j].start && toks[i].end == toks[j].end
    ensures i == j
  {
  }

  /** The category classes are never `error`. */
  lemma ClassNameIsNotError(k: TokenType)
    ensures ClassName(k) != "error"
  {
  }

  /** On a located error the editor shows the code unchanged, marks every
      token once and in order, and gives the class `error` to exactly the
      error's token. */
  lemma ErrorViewMarksOnlyTheToken(code: string)
    requires Run(code).Located?
    ensures ErrorView(code).Some?
    ensures Plain(ErrorView(code).value) == code
    ensures var toks := Tokenize(code);
      var t := Run(code).token;
      var marks := Marks(ErrorSegments(code, toks, t.start, t.end, 0));
      && |marks| == |toks|
      && forall i :: 0 <= i < |toks| ==> marks[i].1 == toks[i].text && (marks[i].0 == "error" <==> toks[i] == t)
  {
    var toks := Tokenize(code);
    var t := Run(code).token;
    LocatedTokenIsToken(code);
    HighlightWithErrorShowsCode(code, toks, t.start, t.end);
    assert StartsFrom(toks, 0);
    ErrorSegmentsMarks(code, toks, t.start, t.end, 0);
    NonEmptyLayout(code, toks);
    var j :| 0 <= j < |toks| && toks[j] == t;
    ErrorMarksClasses(toks, t.start, t.end);
    forall i | 0 <= i < |toks|
      ensures ErrorMarks(toks, t.start, t.end)[i].0 == "error" <==> toks[i] == t
    {
      ClassNameIsNotError(toks[i].kind);
      if toks[i].start == t.start && toks[i].end == t.end {
        SpanIdentifiesToken(toks, i, j);
      }
    }
  }

  lemma NonEmptyLayout(code: string, toks: seq<Token>)
    requires toks == Tokenize(code)
    ensures NonEmptySpans(toks)
  {
    TokensAreCandidates(code);
    forall i | 0 <= i < |toks| ensures toks[i].start < toks[i].end {
      assert toks[i] in toks;
    }
  }

  /** `ErrorMarks` pairs each token with its error class and text. */
  lemma {:induction false} ErrorMarksClasses(toks: seq<Token>, errStart: nat, errEnd: nat)
    ensures |ErrorMarks(toks, errStart, errEnd)| == |toks|
    ensures forall i :: 0 <= i < |toks| ==>
      ErrorMarks(toks, errStart, errEnd)[i] == (ErrorClass(toks[i], errStart, errEnd), toks[i].text)
  {
    if toks != [] {
      ErrorMarksClasses(toks[1..], errStart, errEnd);
      var m := ErrorMarks(toks, errStart, errEnd);
      forall i | 0 < i < |toks|
        ensures m[i] == (ErrorClass(toks[i], errStart, errEnd), toks[i].text)
      {
        assert m[i] == ErrorMarks(toks[1..], errStart, errEnd)[i - 1];
        assert toks[i] == toks[1..][i - 1];
      }
    }
  }
}
