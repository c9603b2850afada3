/** The recursive-descent `Parser`, as pure functions over the token
    sequence and a parser state. A thrown exception becomes a `Failure`,
    and the three kinds the caller tells apart stay distinct: a
    `ParseError` with a token, a `ParseError` with a null token, and any
    other error. */
module Parser {
  import opened Results
  import opened Lexicon

  /** The mutable fields of the parser: `pos` and `declaredVars`. */
  datatype State = State(pos: nat, declared: set<string>)

  /** What each thrown message reports; the Turkish sentence itself is
      left out, the data it interpolates is kept. */
  datatype Message =
    | ExpectedAtEnd(kind: TokenType, value: string)
    | ExpectedKind(kind: TokenType, foundKind: TokenType)
    | ExpectedText(value: string, found: string)
    | UnknownKeyword(text: string)
    | UnexpectedToken(text: string)
    | ExpectedVariableOrFunction(found: string)
    | Undeclared(name: string)
    | FactorMissing
    | InvalidFactor(text: string)

  /** `ParseError` carries the offending token or `null`; `Error` is thrown
      by `parseFactor`; `TypeError` is what reading `.type` of `undefined`
      raises. */
  datatype Failure =
    | ParseError(msg: Message, token: Option<Token>)
    | PlainError(msg: Message)
    | TypeError

  type Step = Result<State, Failure>

  /** The state after `this.pos++`. */
  function Next(st: State): State {
    State(st.pos + 1, st.declared)
  }

  /** `peek()` is a token of category `kind` with text `text`. */
  predicate NextIs(toks: seq<Token>, pos: nat, kind: TokenType, text: string) {
    pos < |toks| && toks[pos].kind == kind && toks[pos].text == text
  }

  /** `toks[i]` is the name of a `variable` declaration: the token before
      it is the keyword `variable`. */
  predicate IsVarName(toks: seq<Token>, i: int) {
    0 < i < |toks| && toks[i - 1].kind == Keyword && toks[i - 1].text == "variable"
    && toks[i].kind == Tanimlayici
  }

  /** `name` is declared by a `variable NAME` pair lying in `[lo, hi)`. */
  predicate DeclaredIn(toks: seq<Token>, lo: nat, hi: nat, name: string) {
    exists i :: lo < i < hi && IsVarName(toks, i) && toks[i].text == name
  }

  /** Moving from `st` to `st2` only steps forward and only adds names
      that a `variable NAME` pair in the consumed tokens declares. */
  predicate Advances(toks: seq<Token>, st: State, st2: State) {
    && st.pos <= st2.pos <= |toks|
    && st.declared <= st2.declared
    && forall n :: n in st2.declared && n !in st.declared ==> DeclaredIn(toks, st.pos, st2.pos, n)
  }

  /** A failure that carries a token carries one at or after `pos`. */
  predicate Anchored(toks: seq<Token>, pos: nat, f: Failure) {
    f.ParseError? && f.token.Some? ==> exists i :: pos <= i < |toks| && toks[i] == f.token.value
  }

  /** A `ParseError` without a token only comes from `consume` at the end
      of the tokens, and a plain `Error` only from `parseFactor`. */
  predicate Shaped(f: Failure) {
    && (f.ParseError? && f.token.None? ==> f.msg.ExpectedAtEnd?)
    && (f.PlainError? ==> f.msg.FactorMissing? || f.msg.InvalidFactor?)
  }

  /** A `TypeError` only comes from reading `.type` past a final `let`. */
  predicate EndsInLet(toks: seq<Token>) {
    0 < |toks| && toks[|toks| - 1].kind == Keyword && toks[|toks| - 1].text == "let"
  }

  /** What every parsing step promises. */
  predicate Sound(toks: seq<Token>, st: State, r: Step) {
    && (r.Success? ==> Advances(toks, st, r.value))
    && (r.Failure? ==> Anchored(toks, st.pos, r.error) && Shaped(r.error))
    && (r.Failure? && r.error.TypeError? ==> EndsInLet(toks))
  }

  /** A successful step consumed at least one token. */
  predicate Progress(st: State, r: Step) {
    r.Success? ==> st.pos < r.value.pos
  }

  /** A step from `mid` appended to an advance from `st` to `mid`. */
  lemma Chain(toks: seq<Token>, st: State, mid: State, r: Step)
    requires Advances(toks, st, mid) && Sound(toks, mid, r)
    ensures Sound(toks, st, r)
  {
    if r.Success? {
      forall n | n in r.value.declared && n !in st.declared
        ensures DeclaredIn(toks, st.pos, r.value.pos, n)
      {
        if n in mid.declared {
          var i :| st.pos < i < mid.pos && IsVarName(toks, i) && toks[i].text == n;
          assert st.pos < i < r.value.pos;
        } else {
          var i :| mid.pos < i < r.value.pos && IsVarName(toks, i) && toks[i].text == n;
          assert st.pos < i < r.value.pos;
        }
      }
    } else if r.error.ParseError? && r.error.token.Some? {
      var i :| mid.pos <= i < |toks| && toks[i] == r.error.token.value;
      assert st.pos <= i;
    }
  }

  /** `consume(type, value)`, with `value == ""` for an absent value: the
      current token when it has category `kind` and, if a value is given,
      text `value`. */
  function Consume(toks: seq<Token>, pos: nat, kind: TokenType, value: string): (r: Result<Token, Failure>)
    ensures r.Success? <==> pos < |toks| && toks[pos].kind == kind && (value == "" || toks[pos].text == value)
    ensures r.Success? ==> r.value == toks[pos]
    ensures pos >= |toks| ==> r == Failure(ParseError(ExpectedAtEnd(kind, value), None))
    ensures pos < |toks| && r.Failure? ==> r.error.ParseError? && r.error.token == Some(toks[pos])
  {
    if pos >= |toks| then Failure(ParseError(ExpectedAtEnd(kind, value), None))
    else if toks[pos].kind != kind then Failure(ParseError(ExpectedKind(kind, toks[pos].kind), Some(toks[pos])))
    else if value != "" && toks[pos].text != value then Failure(ParseError(ExpectedText(value, toks[pos].text), Some(toks[pos])))
    else Success(toks[pos])
  }

  /** `consume` as a parsing step: one token further, nothing else changed. */
  function Expect(toks: seq<Token>, st: State, kind: TokenType, value: string): (r: Step)
    requires st.pos <= |toks|
    ensures Sound(toks, st, r) && Progress(st, r)
    ensures r.Success? ==> r.value == Next(st)
  {
    var _ :- Consume(toks, st.pos, kind, value);
    Success(Next(st))
  }

  /** `if (this.peek() && this.peek().text === ';') this.consume('operator', ';')` */
  function OptionalSemicolon(toks: seq<Token>, st: State): (r: Step)
    requires st.pos <= |toks|
    ensures Sound(toks, st, r)
    ensures r.Success? ==> r.value.declared == st.declared && r.value.pos <= st.pos + 1
  {
    if st.pos < |toks| && toks[st.pos].text == ";" then Expect(toks, st, Operator, ";")
    else Success(st)
  }

  /** The second `parseStatement`, which replaces the first. At the end of
      the tokens it returns without doing anything. */
  function ParseStatement(toks: seq<Token>, st: State): (r: Step)
    requires st.pos <= |toks|
    ensures Sound(toks, st, r)
    ensures st.pos < |toks| ==> Progress(st, r)
    decreases |toks| - st.pos, 1
  {
    if st.pos == |toks| then Success(st)
    else
      var t := toks[st.pos];
      if t.kind == Keyword then
        if t.text == "let" then ParseDeclaration(toks, st)
        else if t.text == "if" then ParseIfStatement(toks, st)
        else if t.text == "return" then ParseReturnStatement(toks, st)
        else Failure(ParseError(UnknownKeyword(t.text), Some(t)))
      else if t.kind == Tanimlayici then ParseAssignment(toks, st)
      else Failure(ParseError(UnexpectedToken(t.text), Some(t)))
  }

  /** `parseDeclaration`: `let` followed by `variable` or `function`. When
      `let` is the last token, reading `nextToken.type` throws a `TypeError`. */
  function ParseDeclaration(toks: seq<Token>, st: State): (r: Step)
    requires st.pos <= |toks|
    ensures Sound(toks, st, r) && Progress(st, r)
    decreases |toks| - st.pos, 0
  {
    var s1 :- Expect(toks, st, Keyword, "let");
    if s1.pos == |toks| then Failure(TypeError)
    else
      var t := toks[s1.pos];
      var r :=
        if t.kind == Keyword && t.text == "variable" then ParseVariableDeclaration(toks, s1)
        else if t.kind == Keyword && t.text == "function" then ParseFunctionDeclaration(toks, s1)
        else Failure(ParseError(ExpectedVariableOrFunction(t.text), Some(t)));
      Chain(toks, st, s1, r);
      r
  }

  /** `parseVariableDeclaration`: the name is added before the optional
      initializer is parsed. */
  function ParseVariableDeclaration(toks: seq<Token>, st: State): (r: Step)
    requires st.pos <= |toks|
    ensures Sound(toks, st, r) && Progress(st, r)
    ensures r.Success? ==> st.pos + 1 < |toks| && toks[st.pos + 1].text in r.value.declared
    decreases |toks| - st.pos, 0
  {
    var s1 :- Expect(toks, st, Keyword, "variable");
    var id :- Consume(toks, s1.pos, Tanimlayici, "");
    var s2 := State(s1.pos + 1, s1.declared + {id.text});
    assert IsVarName(toks, s1.pos);
    var s3 :- ParseInitializer(toks, s2);
    var r := OptionalSemicolon(toks, s3);
    Chain(toks, s2, s3, r);
    Chain(toks, st, s2, r);
    r
  }

  /** The optional `= expression` of a variable declaration. */
  function ParseInitializer(toks: seq<Token>, st: State): (r: Step)
    requires st.pos <= |toks|
    ensures Sound(toks, st, r)
    ensures r.Success? ==> r.value.declared == st.declared
    decreases |toks| - st.pos, 0
  {
    if NextIs(toks, st.pos, Operator, "=") then
      // consume('operator', '=') on a token just seen to be `=`
      var s1 := Next(st);
      var r := ParseExpression(toks, s1);
      Chain(toks, st, s1, r);
      r
    else Success(st)
  }

  /** `parseFunctionDeclaration`: the function's name is not declared; the
      body in braces is optional. */
  function ParseFunctionDeclaration(toks: seq<Token>, st: State): (r: Step)
    requires st.pos <= |toks|
    ensures Sound(toks, st, r) && Progress(st, r)
    decreases |toks| - st.pos, 0
  {
    var s1 :- Expect(toks, st, Keyword, "function");
    var s2 :- Expect(toks, s1, Tanimlayici, "");
    var s3 :- Expect(toks, s2, Parantez, "(");
    var s4 :- Expect(toks, s3, Parantez, ")");
    if NextIs(toks, s4.pos, Parantez, "{") then
      var r := ParseBraced(toks, s4);
      Chain(toks, st, s4, r);
      r
    else Success(s4)
  }

  /** `parseIfStatement`: the condition in parentheses, a braced block, and
      optionally `else` with a second braced block. */
  function ParseIfStatement(toks: seq<Token>, st: State): (r: Step)
    requires st.pos <= |toks|
    ensures Sound(toks, st, r) && Progress(st, r)
    decreases |toks| - st.pos, 0
  {
    var s1 :- Expect(toks, st, Keyword, "if");
    var s2 :- Expect(toks, s1, Parantez, "(");
    var s3 := ParseExpression(toks, s2);
    Chain(toks, st, s2, s3);
    var s3 :- s3;
    var s4 :- Expect(toks, s3, Parantez, ")");
    Chain(toks, st, s3, Expect(toks, s3, Parantez, ")"));
    var s5 := ParseBraced(toks, s4);
    Chain(toks, st, s4, s5);
    var s5 :- s5;
    var r :=
      if NextIs(toks, s5.pos, Keyword, "else") then
        var s6 := Next(s5);
        var r := ParseBraced(toks, s6);
        Chain(toks, s5, s6, r);
        r
      else Success(s5);
    Chain(toks, st, s5, r);
    r
  }

  /** `{`, statements up to the closing `}`, then `}`. */
  function ParseBraced(toks: seq<Token>, st: State): (r: Step)
    requires st.pos <= |toks|
    ensures Sound(toks, st, r) && Progress(st, r)
    decreases |toks| - st.pos, 0
  {
    var s1 :- Expect(toks, st, Parantez, "{");
    var s2 := ParseStatements(toks, s1);
    Chain(toks, st, s1, s2);
    var s2 :- s2;
    var r := Expect(toks, s2, Parantez, "}");
    Chain(toks, st, s2, r);
    r
  }

  /** `while (this.peek() && !(peek is '}')) this.parseStatement();` */
  function ParseStatements(toks: seq<Token>, st: State): (r: Step)
    requires st.pos <= |toks|
    ensures Sound(toks, st, r)
    ensures r.Success? ==> r.value.pos == |toks| || NextIs(toks, r.value.pos, Parantez, "}")
    decreases |toks| - st.pos, 2
  {
    if st.pos < |toks| && !NextIs(toks, st.pos, Parantez, "}") then
      var s1 :- ParseStatement(toks, st);
      var r := ParseStatements(toks, s1);
      Chain(toks, st, s1, r);
      r
    else Success(st)
  }

  /** `parseReturnStatement`: `return`, an expression, an optional `;`. */
  function ParseReturnStatement(toks: seq<Token>, st: State): (r: Step)
    requires st.pos <= |toks|
    ensures Sound(toks, st, r) && Progress(st, r)
    ensures r.Success? ==> r.value.declared == st.declared
    decreases |toks| - st.pos, 0
  {
    var s1 :- Expect(toks, st, Keyword, "return");
    var s2 := ParseExpression(toks, s1);
    Chain(toks, st, s1, s2);
    var s2 :- s2;
    var r := OptionalSemicolon(toks, s2);
    Chain(toks, st, s2, r);
    r
  }

  /** `parseAssignment`: the name must already be declared; the error is
      anchored to the name's token. */
  function ParseAssignment(toks: seq<Token>, st: State): (r: Step)
    requires st.pos <= |toks|
    ensures Sound(toks, st, r) && Progress(st, r)
    decreases |toks| - st.pos, 0
  {
    var id :- Consume(toks, st.pos, Tanimlayici, "");
    if id.text !in st.declared then Failure(ParseError(Undeclared(id.text), Some(id)))
    else
      var s1 := Next(st);
      var s2 :- Expect(toks, s1, Operator, "=");
      var s3 := ParseExpression(toks, s2);
      Chain(toks, st, s2, s3);
      var s3 :- s3;
      var r := OptionalSemicolon(toks, s3);
      Chain(toks, st, s3, r);
      r
  }

  /** `parseExpression`: terms separated by `+` or `-` operator tokens. */
  function ParseExpression(toks: seq<Token>, st: State): (r: Step)
    requires st.pos <= |toks|
    ensures Sound(toks, st, r) && Progress(st, r)
    ensures r.Success? ==> r.value.declared == st.declared
    decreases |toks| - st.pos, 2
  {
    var s1 :- ParseTerm(toks, st);
    var r := ExpressionTail(toks, s1);
    Chain(toks, st, s1, r);
    r
  }

  function ExpressionTail(toks: seq<Token>, st: State): (r: Step)
    requires st.pos <= |toks|
    ensures Sound(toks, st, r)
    ensures r.Success? ==> r.value.declared == st.declared
    decreases |toks| - st.pos, 0
  {
    if NextIs(toks, st.pos, Operator, "+") || NextIs(toks, st.pos, Operator, "-") then
      var s1 := Next(st);
      var s2 := ParseTerm(toks, s1);
      Chain(toks, st, s1, s2);
      var s2 :- s2;
      var r := ExpressionTail(toks, s2);
      Chain(toks, st, s2, r);
      r
    else Success(st)
  }

  /** `parseTerm`: factors separated by `*` or `/` operator tokens. */
  function ParseTerm(toks: seq<Token>, st: State): (r: Step)
    requires st.pos <= |toks|
    ensures Sound(toks, st, r) && Progress(st, r)
    ensures r.Success? ==> r.value.declared == st.declared
    decreases |toks| - st.pos, 1
  {
    var s1 :- ParseFactor(toks, st);
    var r := TermTail(toks, s1);
    Chain(toks, st, s1, r);
    r
  }

  function TermTail(toks: seq<Token>, st: State): (r: Step)
    requires st.pos <= |toks|
    ensures Sound(toks, st, r)
    ensures r.Success? ==> r.value.declared == st.declared
    decreases |toks| - st.pos, 0
  {
    if NextIs(toks, st.pos, Operator, "*") || NextIs(toks, st.pos, Operator, "/") then
      var s1 := Next(st);
      var s2 := ParseFactor(toks, s1);
      Chain(toks, st, s1, s2);
      var s2 :- s2;
      var r := TermTail(toks, s2);
      Chain(toks, st, s2, r);
      r
    else Success(st)
  }

  /** `parseFactor`: a literal, a name, or a parenthesised expression. A
      missing or unsuitable token throws a plain `Error`, not a `ParseError`. */
  function ParseFactor(toks: seq<Token>, st: State): (r: Step)
    requires st.pos <= |toks|
    ensures Sound(toks, st, r) && Progress(st, r)
    ensures r.Success? ==> r.value.declared == st.declared
    decreases |toks| - st.pos, 0
  {
    if st.pos == |toks| then Failure(PlainError(FactorMissing))
    else
      var t := toks[st.pos];
      if t.kind == Literal || t.kind == Tanimlayici then Success(Next(st))
      else if t.kind == Parantez && t.text == "(" then
        var s1 := Next(st);
        var s2 := ParseExpression(toks, s1);
        Chain(toks, st, s1, s2);
        var s2 :- s2;
        var r := Expect(toks, s2, Parantez, ")");
        Chain(toks, st, s2, r);
        r
      else Failure(PlainError(InvalidFactor(t.text)))
  }

  /** `parseProgram`: statements until the tokens run out. */
  function ParseProgram(toks: seq<Token>, st: State): (r: Step)
    requires st.pos <= |toks|
    ensures Sound(toks, st, r)
    ensures r.Success? ==> r.value.pos == |toks|
    decreases |toks| - st.pos
  {
    if st.pos < |toks| then
      var s1 :- ParseStatement(toks, st);
      var r := ParseProgram(toks, s1);
      Chain(toks, st, s1, r);
      r
    else Success(st)
  }

  /** `new Parser(tokens).parseProgram()`. */
  function Parse(toks: seq<Token>): (r: Step)
    ensures Sound(toks, State(0, {}), r)
    ensures r.Success? ==> r.value.pos == |toks|
  {
    ParseProgram(toks, State(0, {}))
  }

  /** A statement that starts with a keyword other than `let`, `if` and
      `return` fails on that keyword; one that starts with neither a
      keyword nor a name fails on its first token. */
  lemma StatementRejects(toks: seq<Token>, st: State)
    requires st.pos < |toks|
    ensures var t := toks[st.pos];
      t.kind == Keyword && t.text != "let" && t.text != "if" && t.text != "return"
      ==> ParseStatement(toks, st) == Failure(ParseError(UnknownKeyword(t.text), Some(t)))
    ensures var t := toks[st.pos];
      t.kind != Keyword && t.kind != Tanimlayici
      ==> ParseStatement(toks, st) == Failure(ParseError(UnexpectedToken(t.text), Some(t)))
  {
  }

  /** A statement that is a `let` standing as the last token reads `.type`
      of the missing next token: the converse of the `TypeError` clause of
      `Sound`. */
  lemma FinalLetIsTypeError(toks: seq<Token>, st: State)
    requires st.pos + 1 == |toks| && toks[st.pos].kind == Keyword && toks[st.pos].text == "let"
    ensures ParseStatement(toks, st) == Failure(TypeError)
  {
  }

  /** Assigning to a name that is not declared fails on the name's token,
      before anything after it is looked at. */
  lemma UndeclaredAssignment(toks: seq<Token>, st: State)
    requires st.pos < |toks| && toks[st.pos].kind == Tanimlayici && toks[st.pos].text !in st.declared
    ensures ParseStatement(toks, st) == Failure(ParseError(Undeclared(toks[st.pos].text), Some(toks[st.pos])))
  {
  }

  /** A whole successful parse consumes every token, and every declared
      name is the name of some `variable NAME` pair. */
  lemma ParseDeclaresOnlyVariables(toks: seq<Token>)
    requires Parse(toks).Success?
    ensures Parse(toks).value.pos == |toks|
    ensures forall n :: n in Parse(toks).value.declared ==> exists i :: IsVarName(toks, i) && toks[i].text == n
  {
    var r := Parse(toks).value;
    forall n | n in r.declared ensures exists i :: IsVarName(toks, i) && toks[i].text == n {
      assert DeclaredIn(toks, 0, r.pos, n);
    }
  }
}
