/** Worked token sequences for the parser and for the classification of
    its outcome, each stated as a lemma about the whole parse; for `y = 1`
    the tokens are derived from the text by `Tokenize`. */
module Examples {
  import opened Results
  import opened Lexicon
  import opened Scanners
  import opened Resolver
  import opened Tokenizer
  import opened Parser
  import opened Reporting

  /** A token whose span starts at `at` and covers its text. */
  function Tok(kind: TokenType, text: string, at: nat): (t: Token)
    ensures t.end - t.start == |text| && t.text == text && t.kind == kind
  {
    Token(at, at + |text|, text, kind)
  }

  /** The tokens of `let variable x = 1 x = x + 2`. */
  const DeclareThenAssignTokens: seq<Token> :=
    [Tok(Keyword, "let", 0), Tok(Keyword, "variable", 4), Tok(Tanimlayici, "x", 13),
     Tok(Operator, "=", 15), Tok(Literal, "1", 17), Tok(Tanimlayici, "x", 19),
     Tok(Operator, "=", 21), Tok(Tanimlayici, "x", 23), Tok(Operator, "+", 25),
     Tok(Literal, "2", 27)]

  lemma VariableInitializer()
    ensures ParseInitializer(DeclareThenAssignTokens, State(3, {"x"})) == Success(State(5, {"x"}))
  {
    var toks := DeclareThenAssignTokens;
    var x: set<string> := {"x"};
    assert ExpressionTail(toks, State(5, x)) == Success(State(5, x));
    assert TermTail(toks, State(5, x)) == Success(State(5, x));
    assert ParseFactor(toks, State(4, x)) == Success(State(5, x));
    assert ParseTerm(toks, State(4, x)) == Success(State(5, x));
  }

  lemma VariableDeclaration()
    ensures ParseVariableDeclaration(DeclareThenAssignTokens, State(1, {})) == Success(State(5, {"x"}))
  {
    var toks := DeclareThenAssignTokens;
    var x: set<string> := {"x"};
    VariableInitializer();
    assert OptionalSemicolon(toks, State(5, x)) == Success(State(5, x));
    assert Expect(toks, State(1, {}), Keyword, "variable") == Success(State(2, {}));
    assert Consume(toks, 2, Tanimlayici, "") == Success(toks[2]);
    assert {} + {toks[2].text} == x;
  }

  lemma DeclarationStep()
    ensures ParseStatement(DeclareThenAssignTokens, State(0, {})) == Success(State(5, {"x"}))
  {
    VariableDeclaration();
  }

  lemma AssignmentStep()
    ensures ParseProgram(DeclareThenAssignTokens, State(5, {"x"})) == Success(State(10, {"x"}))
  {
    var toks := DeclareThenAssignTokens;
    var x: set<string> := {"x"};
    assert ExpressionTail(toks, State(10, x)) == Success(State(10, x));
    assert TermTail(toks, State(10, x)) == Success(State(10, x));
    assert ParseFactor(toks, State(9, x)) == Success(State(10, x));
    assert ParseTerm(toks, State(9, x)) == Success(State(10, x));
    assert ExpressionTail(toks, State(8, x)) == Success(State(10, x));
    assert TermTail(toks, State(8, x)) == Success(State(8, x));
    assert ParseFactor(toks, State(7, x)) == Success(State(8, x));
    assert ParseTerm(toks, State(7, x)) == Success(State(8, x));
    assert ParseExpression(toks, State(7, x)) == Success(State(10, x));
    assert ParseAssignment(toks, State(5, x)) == Success(State(10, x));
    assert ParseStatement(toks, State(5, x)) == Success(State(10, x));
    assert ParseProgram(toks, State(10, x)) == Success(State(10, x));
  }

  /** A declared variable can be assigned to afterwards. */
  lemma DeclareThenAssign()
    ensures Parse(DeclareThenAssignTokens) == Success(State(10, {"x"}))
    ensures Classify(Parse(DeclareThenAssignTokens)) == NoSyntaxError
  {
    DeclarationStep();
    AssignmentStep();
  }

  /** The editor text `y = 1` and the tokens `tokenize` gives for it. */
  const AssignUndeclaredCode: string := "y = 1"

  const AssignUndeclaredTokens: seq<Token> :=
    [Tok(Tanimlayici, "y", 0), Tok(Operator, "=", 2), Tok(Literal, "1", 4)]

  /** No reserved word occurs in `y = 1`. */
  lemma AssignKeywordScan()
    ensures Scan(Keyword, AssignUndeclaredCode, 0) == []
  {
    var s := AssignUndeclaredCode;
    forall p | 0 <= p < |s| ensures MatchKeyword(s, p) == None {
      KeywordMatchIsWholeWord(s, p);
      if p == 0 {
        assert WordEnd(s, 0) == 1;
        assert s[0..1] == "y";
      }
    }
    assert Scan(Keyword, s, 4) == [];
    assert Scan(Keyword, s, 3) == [];
    assert Scan(Keyword, s, 2) == [];
    assert Scan(Keyword, s, 1) == [];
  }

  /** The operator scan of `y = 1` finds `=`. */
  lemma AssignOperatorScan()
    ensures Scan(Operator, AssignUndeclaredCode, 0) == [Tok(Operator, "=", 2)]
  {
    var s := AssignUndeclaredCode;
    assert Scan(Operator, s, 3) == [];
    assert RunEnd(s, 2, IsOperatorChar) == 3;
    assert s[2..3] == "=";
    assert Scan(Operator, s, 2) == [Tok(Operator, "=", 2)];
  }

  /** The literal scan of `y = 1` finds `1`. */
  lemma AssignLiteralScan()
    ensures Scan(Literal, AssignUndeclaredCode, 0) == [Tok(Literal, "1", 4)]
  {
    var s := AssignUndeclaredCode;
    assert RunEnd(s, 4, IsDigit) == 5;
    assert MatchNumber(s, 4) == Some(5);
    assert s[4..5] == "1";
    assert Scan(Literal, s, 4) == [Tok(Literal, "1", 4)];
    assert Scan(Literal, s, 3) == [Tok(Literal, "1", 4)];
    assert Scan(Literal, s, 2) == [Tok(Literal, "1", 4)];
    assert Scan(Literal, s, 1) == [Tok(Literal, "1", 4)];
  }

  /** There is no bracket in `y = 1`. */
  lemma AssignBracketScan()
    ensures Scan(Parantez, AssignUndeclaredCode, 0) == []
  {
    var s := AssignUndeclaredCode;
    assert Scan(Parantez, s, 4) == [];
    assert Scan(Parantez, s, 3) == [];
    assert Scan(Parantez, s, 2) == [];
    assert Scan(Parantez, s, 1) == [];
  }

  /** The identifier scan of `y = 1` finds `y`. */
  lemma AssignIdentifierScan()
    ensures Scan(Tanimlayici, AssignUndeclaredCode, 0) == [Tok(Tanimlayici, "y", 0)]
  {
    var s := AssignUndeclaredCode;
    assert Scan(Tanimlayici, s, 4) == [];
    assert Scan(Tanimlayici, s, 3) == [];
    assert Scan(Tanimlayici, s, 2) == [];
    assert Scan(Tanimlayici, s, 1) == [];
    assert WordEnd(s, 0) == 1;
    assert s[0..1] == "y";
  }

  /** The candidates of the last three patterns. */
  lemma AssignLaterCandidates()
    ensures CandidatesFrom(AssignUndeclaredCode, [Literal, Parantez, Tanimlayici]) == [Tok(Literal, "1", 4), Tok(Tanimlayici, "y", 0)]
  {
    var s := AssignUndeclaredCode;
    var kinds: seq<TokenType> := [Literal, Parantez, Tanimlayici];
    AssignLiteralScan();
    AssignBracketScan();
    AssignIdentifierScan();
    assert kinds[1..][1..][1..] == [];
    assert CandidatesFrom(s, kinds[1..][1..]) == [Tok(Tanimlayici, "y", 0)];
    assert CandidatesFrom(s, kinds[1..]) == [Tok(Tanimlayici, "y", 0)];
  }

  /** All candidates of `y = 1`, in `patterns` order. */
  lemma AssignCandidates()
    ensures Candidates(AssignUndeclaredCode) == [Tok(Operator, "=", 2), Tok(Literal, "1", 4), Tok(Tanimlayici, "y", 0)]
  {
    var s := AssignUndeclaredCode;
    AssignKeywordScan();
    AssignOperatorScan();
    AssignLaterCandidates();
    assert Patterns[1..][1..] == [Literal, Parantez, Tanimlayici];
    assert CandidatesFrom(s, Patterns[1..]) == [Tok(Operator, "=", 2), Tok(Literal, "1", 4), Tok(Tanimlayici, "y", 0)];
  }

  /** The sort puts `y` first, then `=`, then `1`. */
  lemma AssignSorted()
    ensures Sort([Tok(Operator, "=", 2), Tok(Literal, "1", 4), Tok(Tanimlayici, "y", 0)])
         == [Tok(Tanimlayici, "y", 0), Tok(Operator, "=", 2), Tok(Literal, "1", 4)]
  {
    var y, eq, one := Tok(Tanimlayici, "y", 0), Tok(Operator, "=", 2), Tok(Literal, "1", 4);
    assert y.start == 0 && eq.start == 2 && eq.end == 3 && one.start == 4;
    assert [one, y][1..] == [y];
    assert [eq, one, y][1..] == [one, y];
    assert Sort([y]) == Insert(y, []) == [y];
    assert Insert(one, [y]) == [y] + Insert(one, []) == [y, one];
    assert Sort([one, y]) == [y, one];
    assert Insert(eq, [one]) == [eq, one];
    assert Insert(eq, [y, one]) == [y] + Insert(eq, [one]) == [y, eq, one];
  }

  /** `tokenize('y = 1')`: none of the three candidates overlaps another. */
  lemma TokenizeAssignUndeclared()
    ensures Tokenize(AssignUndeclaredCode) == AssignUndeclaredTokens
  {
    var y, eq, one := Tok(Tanimlayici, "y", 0), Tok(Operator, "=", 2), Tok(Literal, "1", 4);
    assert y.end == 1 && eq.start == 2 && eq.end == 3 && one.start == 4;
    AssignCandidates();
    AssignSorted();
    assert Select([one], 3) == [one];
    assert Select([eq, one], 1) == [eq, one];
    assert Select([y, eq, one], 0) == [y, eq, one];
  }

  /** `y = 1`: assigning to an undeclared name is an error located at the name. */
  lemma AssignUndeclared()
    ensures Classify(Parse(AssignUndeclaredTokens)) == Located(Undeclared("y"), AssignUndeclaredTokens[0])
    ensures Run(AssignUndeclaredCode) == Located(Undeclared("y"), Tok(Tanimlayici, "y", 0))
  {
    TokenizeAssignUndeclared();
  }

  /** `if (1) {`: running out of tokens before `}` is a `ParseError` without
      a token, which is not located. */
  lemma UnclosedBlock()
    ensures var toks := [Tok(Keyword, "if", 0), Tok(Parantez, "(", 3), Tok(Literal, "1", 4),
                         Tok(Parantez, ")", 5), Tok(Parantez, "{", 7)];
      Parse(toks) == Failure(ParseError(ExpectedAtEnd(Parantez, "}"), None))
      && Classify(Parse(toks)).Unknown?
  {
    var toks := [Tok(Keyword, "if", 0), Tok(Parantez, "(", 3), Tok(Literal, "1", 4),
                 Tok(Parantez, ")", 5), Tok(Parantez, "{", 7)];
    var e := Failure(ParseError(ExpectedAtEnd(Parantez, "}"), None));
    assert ParseExpression(toks, State(2, {})) == Success(State(3, {}));
    assert ParseStatements(toks, State(5, {})) == Success(State(5, {}));
    assert ParseBraced(toks, State(4, {})) == e;
    assert ParseIfStatement(toks, State(0, {})) == e;
  }

  /** `let` as the last token: the parser reads a property of `undefined`. */
  lemma LoneLet()
    ensures Parse([Tok(Keyword, "let", 0)]) == Failure(TypeError)
    ensures Classify(Parse([Tok(Keyword, "let", 0)])) == Unknown(TypeError)
  {
  }

  /** `let variable x = y`: names in expressions are not checked against the
      declared ones. */
  lemma InitializerNotChecked()
    ensures var toks := [Tok(Keyword, "let", 0), Tok(Keyword, "variable", 4), Tok(Tanimlayici, "x", 13),
                         Tok(Operator, "=", 15), Tok(Tanimlayici, "y", 17)];
      Parse(toks) == Success(State(5, {"x"}))
  {
    var toks := [Tok(Keyword, "let", 0), Tok(Keyword, "variable", 4), Tok(Tanimlayici, "x", 13),
                 Tok(Operator, "=", 15), Tok(Tanimlayici, "y", 17)];
    var x: set<string> := {"x"};
    assert ParseExpression(toks, State(4, x)) == Success(State(5, x));
    assert Consume(toks, 2, Tanimlayici, "") == Success(toks[2]);
    assert {} + {toks[2].text} == x;
    assert ParseVariableDeclaration(toks, State(1, {})) == Success(State(5, x));
    assert ParseStatement(toks, State(0, {})) == Success(State(5, x));
  }

  /** `let variable x = x`: the name is declared before its initializer is
      parsed, so the initializer may use it. */
  lemma SelfInitializer()
    ensures var toks := [Tok(Keyword, "let", 0), Tok(Keyword, "variable", 4), Tok(Tanimlayici, "x", 13),
                         Tok(Operator, "=", 15), Tok(Tanimlayici, "x", 17)];
      Parse(toks) == Success(State(5, {"x"})) && Classify(Parse(toks)) == NoSyntaxError
  {
    var toks := [Tok(Keyword, "let", 0), Tok(Keyword, "variable", 4), Tok(Tanimlayici, "x", 13),
                 Tok(Operator, "=", 15), Tok(Tanimlayici, "x", 17)];
    var x: set<string> := {"x"};
    assert ParseExpression(toks, State(4, x)) == Success(State(5, x));
    assert Consume(toks, 2, Tanimlayici, "") == Success(toks[2]);
    assert {} + {toks[2].text} == x;
    assert ParseVariableDeclaration(toks, State(1, {})) == Success(State(5, x));
    assert ParseStatement(toks, State(0, {})) == Success(State(5, x));
  }

  /** The tokens of `let function f () f = 1`. */
  const FunctionThenAssignTokens: seq<Token> :=
    [Tok(Keyword, "let", 0), Tok(Keyword, "function", 4), Tok(Tanimlayici, "f", 13),
     Tok(Parantez, "(", 15), Tok(Parantez, ")", 16), Tok(Tanimlayici, "f", 18),
     Tok(Operator, "=", 20), Tok(Literal, "1", 22)]

  lemma FunctionHeader()
    ensures ParseFunctionDeclaration(FunctionThenAssignTokens, State(1, {})) == Success(State(5, {}))
  {
    var toks := FunctionThenAssignTokens;
    assert Expect(toks, State(2, {}), Tanimlayici, "") == Success(State(3, {}));
    assert Expect(toks, State(4, {}), Parantez, ")") == Success(State(5, {}));
  }

  lemma FunctionDeclarationStep()
    ensures ParseStatement(FunctionThenAssignTokens, State(0, {})) == Success(State(5, {}))
  {
    FunctionHeader();
  }

  /** A function's name is not declared, so assigning to it is an error
      located at the name. */
  lemma FunctionNameNotDeclared()
    ensures Classify(Parse(FunctionThenAssignTokens)) == Located(Undeclared("f"), FunctionThenAssignTokens[5])
  {
    var toks := FunctionThenAssignTokens;
    FunctionDeclarationStep();
    assert ParseStatement(toks, State(5, {})) == Failure(ParseError(Undeclared("f"), Some(toks[5])));
  }

  /** `return`: a missing factor throws a plain `Error`, not a `ParseError`. */
  lemma MissingFactor()
    ensures Parse([Tok(Keyword, "return", 0)]) == Failure(PlainError(FactorMissing))
    ensures Classify(Parse([Tok(Keyword, "return", 0)])).Unknown?
  {
  }

  /** `return )`: an unsuitable factor is a plain `Error` as well. */
  lemma InvalidFactorToken()
    ensures Parse([Tok(Keyword, "return", 0), Tok(Parantez, ")", 7)]) == Failure(PlainError(InvalidFactor(")")))
  {
  }

  /** `else` on its own is an unknown keyword, located at `else`. */
  lemma StrayElse()
    ensures Classify(Parse([Tok(Keyword, "else", 0)])) == Located(UnknownKeyword("else"), Tok(Keyword, "else", 0))
  {
  }
}
