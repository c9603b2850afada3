/** The markup built by `highlight` and `highlightWithError`: the text
    between tokens is escaped as is, each token becomes a `<span>` whose
    class is its category (or `error`). The markup is modelled as a list of
    segments and then as the string the functions concatenate. */
module Highlighting {
  import opened Lexicon
  import opened Escaping

  /** A piece of the output: untokenised text, or a token in a span. */
  datatype Segment = Gap(text: string) | Mark(cls: string, text: string)

  /** `s.slice(from, to)` for non-negative bounds: both are clamped to the
      length, and a reversed range is empty. */
  function Slice(s: string, from: nat, to: nat): (r: string)
    ensures |r| <= |s|
  {
    var a := if from <= |s| then from else |s|;
    var b := if to <= |s| then to else |s|;
    if a < b then s[a..b] else ""
  }

  /** The loop of `highlight`: a gap only when the token starts after
      `lastIndex`, then the token's span, and finally `code.slice(lastIndex)`. */
  function Segments(code: string, toks: seq<Token>, lastIndex: nat): seq<Segment>
  {
    if toks == [] then [Gap(Slice(code, lastIndex, |code|))]
    else
      var t := toks[0];
      (if t.start > lastIndex then [Gap(Slice(code, lastIndex, t.start))] else [])
      + [Mark(ClassName(t.kind), t.text)]
      + Segments(code, toks[1..], t.end)
  }

  /** The class `highlightWithError` gives a token. */
  function ErrorClass(t: Token, errStart: nat, errEnd: nat): string {
    if t.start == errStart && t.end == errEnd then "error" else ClassName(t.kind)
  }

  /** The loop of `highlightWithError`: tokens starting before `lastIndex`
      are skipped, each other token is preceded by its (possibly empty) gap,
      and the token with the error's span gets the class `error`. */
  function ErrorSegments(code: string, toks: seq<Token>, errStart: nat, errEnd: nat, lastIndex: nat): seq<Segment>
  {
    if toks == [] then [Gap(Slice(code, lastIndex, |code|))]
    else
      var t := toks[0];
      if t.start >= lastIndex then
        [Gap(Slice(code, lastIndex, t.start)), Mark(ErrorClass(t, errStart, errEnd), t.text)]
        + ErrorSegments(code, toks[1..], errStart, errEnd, t.end)
      else ErrorSegments(code, toks[1..], errStart, errEnd, lastIndex)
  }

  /** `<span class="cls">` */
  function OpenTag(cls: string): string {
    "<span class=\"" + cls + "\">"
  }

  /** `</span>` */
  const CloseTag: string := "</span>"

  function Render(g: Segment): string {
    match g
    case Gap(text) => EscapeHtml(text)
    case Mark(cls, text) => OpenTag(cls) + EscapeHtml(text) + CloseTag
  }

  /** The concatenated `result` string. */
  function Html(segs: seq<Segment>): string {
    if segs == [] then [] else Render(segs[0]) + Html(segs[1..])
  }

  /** `highlight(code)`. */
  function Highlight(code: string, toks: seq<Token>): string {
    Html(Segments(code, toks, 0))
  }

  /** The markup `highlightWithError(code, tokens, errStart, errEnd)` writes. */
  function HighlightWithError(code: string, toks: seq<Token>, errStart: nat, errEnd: nat): string {
    Html(ErrorSegments(code, toks, errStart, errEnd, 0))
  }

  /** The source text a list of segments shows. */
  function Text(segs: seq<Segment>): string {
    if segs == [] then [] else segs[0].text + Text(segs[1..])
  }

  /** The marked spans, in order, as (class, text) pairs. */
  function Marks(segs: seq<Segment>): seq<(string, string)> {
    if segs == [] then []
    else (if segs[0].Mark? then [(segs[0].cls, segs[0].text)] else []) + Marks(segs[1..])
  }

  /** One (class, text) pair per token, with the category as class. */
  function TokenMarks(toks: seq<Token>): seq<(string, string)> {
    if toks == [] then [] else [(ClassName(toks[0].kind), toks[0].text)] + TokenMarks(toks[1..])
  }

  /** One (class, text) pair per token, `error` on the error's span. */
  function ErrorMarks(toks: seq<Token>, errStart: nat, errEnd: nat): seq<(string, string)> {
    if toks == [] then []
    else [(ErrorClass(toks[0], errStart, errEnd), toks[0].text)] + ErrorMarks(toks[1..], errStart, errEnd)
  }

  lemma {:induction false} TextAppend(a: seq<Segment>, b: seq<Segment>)
    ensures Text(a + b) == Text(a) + Text(b)
  {
    if a == [] {
      assert a + b == b;
    } else {
      TextAppend(a[1..], b);
      assert (a + b)[1..] == a[1..] + b;
    }
  }

  lemma {:induction false} MarksAppend(a: seq<Segment>, b: seq<Segment>)
    ensures Marks(a + b) == Marks(a) + Marks(b)
  {
    if a == [] {
      assert a + b == b;
    } else {
      MarksAppend(a[1..], b);
      assert (a + b)[1..] == a[1..] + b;
    }
  }

  /** Every token starts at or after `lastIndex`. */
  predicate StartsFrom(toks: seq<Token>, lastIndex: nat) {
    forall i :: 0 <= i < |toks| ==> lastIndex <= toks[i].start
  }

  lemma LayoutTail(code: string, toks: seq<Token>)
    requires toks != [] && Layout(code, toks)
    ensures Layout(code, toks[1..]) && StartsFrom(toks[1..], toks[0].end)
  {
    forall i, j | 0 <= i < j < |toks[1..]|
      ensures toks[1..][i].end <= toks[1..][j].start
    {
      assert toks[1..][i] == toks[i + 1] && toks[1..][j] == toks[j + 1];
    }
    forall i | 0 <= i < |toks[1..]|
      ensures toks[0].end <= toks[1..][i].start && Spans(code, toks[1..][i])
    {
      assert toks[1..][i] == toks[i + 1];
    }
  }

  /** The gap before a token and the token itself show the code from
      `lastIndex` to the token's end. */
  lemma GapThenToken(code: string, t: Token, lastIndex: nat)
    requires Spans(code, t) && lastIndex <= t.start
    ensures Slice(code, lastIndex, t.start) + t.text == code[lastIndex..t.end]
  {
    if lastIndex == t.start {
      assert Slice(code, lastIndex, t.start) == "";
    }
  }

  /** The segments `highlight` emits for one token. */
  function TokenSegments(code: string, t: Token, lastIndex: nat): seq<Segment> {
    (if t.start > lastIndex then [Gap(Slice(code, lastIndex, t.start))] else [])
    + [Mark(ClassName(t.kind), t.text)]
  }

  lemma TokenSegmentsText(code: string, t: Token, lastIndex: nat)
    requires Spans(code, t) && lastIndex <= t.start
    ensures Text(TokenSegments(code, t, lastIndex)) == code[lastIndex..t.end]
  {
    GapThenToken(code, t, lastIndex);
    var m := [Mark(ClassName(t.kind), t.text)];
    assert Text(m) == t.text + Text([]);
    if t.start > lastIndex {
      var ts := TokenSegments(code, t, lastIndex);
      assert ts[0] == Gap(Slice(code, lastIndex, t.start)) && ts[1..] == m;
    } else {
      assert TokenSegments(code, t, lastIndex) == m;
    }
  }

  /** Reconstruction: gaps and token texts, in order, are the code from
      `lastIndex` on. */
  lemma {:induction false} SegmentsText(code: string, toks: seq<Token>, lastIndex: nat)
    requires Layout(code, toks) && StartsFrom(toks, lastIndex) && lastIndex <= |code|
    ensures Text(Segments(code, toks, lastIndex)) == code[lastIndex..]
  {
    if toks == [] {
      assert Text([Gap(code[lastIndex..])]) == code[lastIndex..] + [];
    } else {
      var t := toks[0];
      var head := TokenSegments(code, t, lastIndex);
      var rest := Segments(code, toks[1..], t.end);
      assert Segments(code, toks, lastIndex) == head + rest;
      LayoutTail(code, toks);
      SegmentsText(code, toks[1..], t.end);
      TextAppend(head, rest);
      TokenSegmentsText(code, t, lastIndex);
      assert code[lastIndex..] == code[lastIndex..t.end] + code[t.end..];
    }
  }

  /** Every token is marked once, in order, with its category. */
  lemma {:induction false} SegmentsMarks(code: string, toks: seq<Token>, lastIndex: nat)
    ensures Marks(Segments(code, toks, lastIndex)) == TokenMarks(toks)
  {
    if toks != [] {
      var t := toks[0];
      var gap: seq<Segment> := if t.start > lastIndex then [Gap(Slice(code, lastIndex, t.start))] else [];
      SegmentsMarks(code, toks[1..], t.end);
      MarksAppend(gap + [Mark(ClassName(t.kind), t.text)], Segments(code, toks[1..], t.end));
      MarksAppend(gap, [Mark(ClassName(t.kind), t.text)]);
    }
  }

  /** `highlightWithError` also shows the code exactly, gaps and tokens in order. */
  lemma {:induction false} ErrorSegmentsText(code: string, toks: seq<Token>, errStart: nat, errEnd: nat, lastIndex: nat)
    requires Layout(code, toks) && StartsFrom(toks, lastIndex) && lastIndex <= |code|
    ensures Text(ErrorSegments(code, toks, errStart, errEnd, lastIndex)) == code[lastIndex..]
  {
    if toks == [] {
      assert Text([Gap(code[lastIndex..])]) == code[lastIndex..] + [];
    } else {
      var t := toks[0];
      var head := [Gap(Slice(code, lastIndex, t.start)), Mark(ErrorClass(t, errStart, errEnd), t.text)];
      LayoutTail(code, toks);
      ErrorSegmentsText(code, toks[1..], errStart, errEnd, t.end);
      TextAppend(head, ErrorSegments(code, toks[1..], errStart, errEnd, t.end));
      assert Text(head) == Slice(code, lastIndex, t.start) + (t.text + []);
      GapThenToken(code, t, lastIndex);
      assert code[lastIndex..] == code[lastIndex..t.end] + code[t.end..];
    }
  }

  /** On ascending tokens no token is skipped: each is marked once, in
      order, and the class is `error` exactly on the error's span. */
  lemma {:induction false} ErrorSegmentsMarks(code: string, toks: seq<Token>, errStart: nat, errEnd: nat, lastIndex: nat)
    requires Layout(code, toks) && StartsFrom(toks, lastIndex)
    ensures Marks(ErrorSegments(code, toks, errStart, errEnd, lastIndex)) == ErrorMarks(toks, errStart, errEnd)
  {
    if toks != [] {
      var t := toks[0];
      var head := [Gap(Slice(code, lastIndex, t.start)), Mark(ErrorClass(t, errStart, errEnd), t.text)];
      LayoutTail(code, toks);
      ErrorSegmentsMarks(code, toks[1..], errStart, errEnd, t.end);
      MarksAppend(head, ErrorSegments(code, toks[1..], errStart, errEnd, t.end));
      assert Marks(head) == [(ErrorClass(t, errStart, errEnd), t.text)];
    }
  }

  /** The index just past the first `>`, or the end. */
  function AfterTag(s: string): (r: string)
    ensures |r| <= |s|
  {
    if s == [] then []
    else if s[0] == '>' then s[1..]
    else AfterTag(s[1..])
  }

  /** Markup with every `<...>` tag removed. */
  function StripTags(s: string): string
    decreases |s|
  {
    if s == [] then []
    else if s[0] == '<' then StripTags(AfterTag(s[1..]))
    else [s[0]] + StripTags(s[1..])
  }

  /** The text a browser shows for the markup: tags removed, the three
      entities decoded. */
  function Plain(html: string): string {
    Unescape(StripTags(html))
  }

  lemma {:induction false} StripTagsKeeps(e: string, rest: string)
    requires '<' !in e
    ensures StripTags(e + rest) == e + StripTags(rest)
  {
    if e == [] {
      assert e + rest == rest;
    } else {
      StripTagsKeeps(e[1..], rest);
      assert (e + rest)[0] == e[0] && (e + rest)[1..] == e[1..] + rest;
      assert e == [e[0]] + e[1..];
    }
  }

  lemma {:induction false} AfterTagSkips(body: string, rest: string)
    requires '>' !in body
    ensures AfterTag(body + ">" + rest) == rest
  {
    if body == [] {
      assert body + ">" + rest == ">" + rest;
    } else {
      AfterTagSkips(body[1..], rest);
      assert (body + ">" + rest)[1..] == body[1..] + ">" + rest;
    }
  }

  lemma StripTagsDropsTag(body: string, rest: string)
    requires '>' !in body
    ensures StripTags("<" + body + ">" + rest) == StripTags(rest)
  {
    var s := "<" + body + ">" + rest;
    assert s[0] == '<' && s[1..] == body + ">" + rest;
    AfterTagSkips(body, rest);
  }

  /** The escaped texts of the segments, concatenated. */
  function EscapedText(segs: seq<Segment>): string {
    if segs == [] then [] else EscapeHtml(segs[0].text) + EscapedText(segs[1..])
  }

  /** Every marked class is free of `>`, so it cannot end its tag early. */
  predicate PlainClasses(segs: seq<Segment>) {
    forall i :: 0 <= i < |segs| && segs[i].Mark? ==> '>' !in segs[i].cls
  }

  /** The opening tag is `<`, a body without `>`, and `>`. */
  lemma OpenTagParts(cls: string)
    ensures OpenTag(cls) == "<" + ("span class=\"" + cls + "\"") + ">"
  {
    assert "<span class=\"" == "<" + "span class=\"";
  }

  lemma CloseTagParts()
    ensures CloseTag == "<" + "/span" + ">"
  {
  }

  lemma RenderStripped(g: Segment, rest: string)
    requires g.Mark? ==> '>' !in g.cls
    ensures StripTags(Render(g) + rest) == EscapeHtml(g.text) + StripTags(rest)
  {
    var e := EscapeHtml(g.text);
    EscapedHasNoBrackets(g.text);
    match g
    case Gap(text) =>
      StripTagsKeeps(e, rest);
    case Mark(cls, text) =>
      var body := "span class=\"" + cls + "\"";
      assert '>' !in body;
      var close := CloseTag + rest;
      OpenTagParts(cls);
      calc {
        Render(g) + rest;
        (("<" + body + ">") + e + CloseTag) + rest;
        "<" + body + ">" + (e + close);
      }
      StripTagsDropsTag(body, e + close);
      StripTagsKeeps(e, close);
      CloseTagParts();
      assert close == "<" + "/span" + ">" + rest;
      StripTagsDropsTag("/span", rest);
  }

  lemma {:induction false} HtmlStripped(segs: seq<Segment>)
    requires PlainClasses(segs)
    ensures StripTags(Html(segs)) == EscapedText(segs)
  {
    if segs != [] {
      assert PlainClasses(segs[1..]) by {
        forall i | 0 <= i < |segs[1..]| && segs[1..][i].Mark? ensures '>' !in segs[1..][i].cls {
          assert segs[1..][i] == segs[i + 1];
        }
      }
      HtmlStripped(segs[1..]);
      RenderStripped(segs[0], Html(segs[1..]));
    }
  }

  lemma {:induction false} UnescapeEscapedText(segs: seq<Segment>)
    ensures Unescape(EscapedText(segs)) == Text(segs)
  {
    if segs != [] {
      UnescapeEscapedText(segs[1..]);
      EscapeHtmlIsCharwise(segs[0].text);
      UnescapeEscapeEach(segs[0].text, EscapedText(segs[1..]));
    }
  }

  /** The shown text of rendered segments is their text. */
  lemma PlainHtml(segs: seq<Segment>)
    requires PlainClasses(segs)
    ensures Plain(Html(segs)) == Text(segs)
  {
    HtmlStripped(segs);
    UnescapeEscapedText(segs);
  }

  /** No category name contains `>`. */
  lemma ClassNamesPlain(k: TokenType)
    ensures '>' !in ClassName(k)
  {
  }

  lemma {:induction false} SegmentsPlainClasses(code: string, toks: seq<Token>, lastIndex: nat)
    ensures PlainClasses(Segments(code, toks, lastIndex))
  {
    if toks != [] {
      var t := toks[0];
      var gap: seq<Segment> := if t.start > lastIndex then [Gap(Slice(code, lastIndex, t.start))] else [];
      var rest := Segments(code, toks[1..], t.end);
      SegmentsPlainClasses(code, toks[1..], t.end);
      ClassNamesPlain(t.kind);
      var all := gap + [Mark(ClassName(t.kind), t.text)] + rest;
      forall i | 0 <= i < |all| && all[i].Mark? ensures '>' !in all[i].cls {
        if i >= |gap| + 1 {
          assert all[i] == rest[i - |gap| - 1];
        }
      }
    }
  }

  lemma {:induction false} ErrorSegmentsPlainClasses(code: string, toks: seq<Token>, errStart: nat, errEnd: nat, lastIndex: nat)
    ensures PlainClasses(ErrorSegments(code, toks, errStart, errEnd, lastIndex))
  {
    if toks != [] {
      var t := toks[0];
      if t.start >= lastIndex {
        var rest := ErrorSegments(code, toks[1..], errStart, errEnd, t.end);
        ErrorSegmentsPlainClasses(code, toks[1..], errStart, errEnd, t.end);
        ClassNamesPlain(t.kind);
        var all := [Gap(Slice(code, lastIndex, t.start)), Mark(ErrorClass(t, errStart, errEnd), t.text)] + rest;
        forall i | 0 <= i < |all| && all[i].Mark? ensures '>' !in all[i].cls {
          if i >= 2 {
            assert all[i] == rest[i - 2];
          }
        }
      } else {
        ErrorSegmentsPlainClasses(code, toks[1..], errStart, errEnd, lastIndex);
      }
    }
  }

  /** The highlighted markup shows exactly the code. */
  lemma HighlightShowsCode(code: string, toks: seq<Token>)
    requires Layout(code, toks)
    ensures Plain(Highlight(code, toks)) == code
  {
    SegmentsPlainClasses(code, toks, 0);
    PlainHtml(Segments(code, toks, 0));
    SegmentsText(code, toks, 0);
  }

  /** The markup with the error span also shows exactly the code. */
  lemma HighlightWithErrorShowsCode(code: string, toks: seq<Token>, errStart: nat, errEnd: nat)
    requires Layout(code, toks)
    ensures Plain(HighlightWithError(code, toks, errStart, errEnd)) == code
  {
    ErrorSegmentsPlainClasses(code, toks, errStart, errEnd, 0);
    PlainHtml(ErrorSegments(code, toks, errStart, errEnd, 0));
    ErrorSegmentsText(code, toks, errStart, errEnd, 0);
  }
}
