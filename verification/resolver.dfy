/** Overlap resolution: the candidates are sorted by start, longer first
    (with a stable sort, so an exact tie keeps `patterns` order), and then
    kept greedily from the left whenever they start at or after the end of
    the last kept token. */
module Resolver {
  import opened Lexicon

  /** `a` may come before `b` under the comparator
      `a.start - b.start || b.end - a.end`. */
  predicate KeyLe(a: Token, b: Token) {
    a.start < b.start || (a.start == b.start && a.end >= b.end)
  }

  predicate SortedByKey(s: seq<Token>) {
    forall i, j :: 0 <= i < j < |s| ==> KeyLe(s[i], s[j])
  }

  /** Inserts `x` in front of the first element it may precede. */
  function Insert(x: Token, s: seq<Token>): (r: seq<Token>)
    ensures |r| == |s| + 1
  {
    if s == [] then [x]
    else if KeyLe(x, s[0]) then [x] + s
    else [s[0]] + Insert(x, s[1..])
  }

  /** Insertion adds exactly `x`. */
  lemma {:induction false} InsertPermutes(x: Token, s: seq<Token>)
    ensures multiset(Insert(x, s)) == multiset(s) + multiset{x}
  {
    if s != [] && !KeyLe(x, s[0]) {
      InsertPermutes(x, s[1..]);
      assert s == [s[0]] + s[1..];
    }
  }

  /** Insertion into a sorted sequence keeps it sorted. */
  lemma {:induction false} InsertKeepsSorted(x: Token, s: seq<Token>)
    requires SortedByKey(s)
    ensures SortedByKey(Insert(x, s))
  {
    if s == [] {
    } else if KeyLe(x, s[0]) {
      var r := [x] + s;
      forall i, j | 0 <= i < j < |r| ensures KeyLe(r[i], r[j]) {
        if i > 0 {
          assert r[i] == s[i - 1];
        }
        assert r[j] == s[j - 1];
      }
    } else {
      assert SortedByKey(s[1..]);
      InsertKeepsSorted(x, s[1..]);
      InsertPermutes(x, s[1..]);
      assert s == [s[0]] + s[1..];
      InsertKeepsOrder(s[0], x, s[1..], Insert(x, s[1..]));
    }
  }

  lemma InsertKeepsOrder(h: Token, x: Token, tail: seq<Token>, rest: seq<Token>)
    requires multiset(rest) == multiset(tail) + multiset{x}
    requires !KeyLe(x, h)
    requires SortedByKey([h] + tail) && SortedByKey(rest)
    ensures SortedByKey([h] + rest)
  {
    var r := [h] + rest;
    forall i, j | 0 <= i < j < |r| ensures KeyLe(r[i], r[j]) {
      if i == 0 {
        var y := rest[j - 1];
        assert r[j] == y;
        assert y in multiset(rest);
        if y != x {
          assert y in multiset(tail);
          assert y in tail;
          var m :| 0 <= m < |tail| && tail[m] == y;
          assert ([h] + tail)[0] == h && ([h] + tail)[m + 1] == y;
          assert KeyLe(h, y);
        } else {
          assert KeyLe(h, x);
        }
      } else {
        assert r[i] == rest[i - 1] && r[j] == rest[j - 1];
      }
    }
  }

  /** The stable sort of `tokens.sort(...)`, as an insertion sort. */
  function Sort(s: seq<Token>): (r: seq<Token>)
    ensures |r| == |s|
  {
    if s == [] then [] else Insert(s[0], Sort(s[1..]))
  }

  /** The sort is a permutation of its input. */
  lemma {:induction false} SortPermutes(s: seq<Token>)
    ensures multiset(Sort(s)) == multiset(s)
  {
    if s != [] {
      SortPermutes(s[1..]);
      InsertPermutes(s[0], Sort(s[1..]));
      assert s == [s[0]] + s[1..];
    }
  }

  /** The sort orders by start, and by end descending on equal starts. */
  lemma {:induction false} SortSorted(s: seq<Token>)
    ensures SortedByKey(Sort(s))
  {
    if s != [] {
      SortSorted(s[1..]);
      InsertKeepsSorted(s[0], Sort(s[1..]));
    }
  }

  /** The tokens of `s` whose span is exactly `[lo, hi)`, in order. */
  function SameSpan(s: seq<Token>, lo: nat, hi: nat): (r: seq<Token>)
    ensures |r| <= |s|
  {
    if s == [] then []
    else (if s[0].start == lo && s[0].end == hi then [s[0]] else []) + SameSpan(s[1..], lo, hi)
  }

  /** The filter keeps exactly the tokens with span `[lo, hi)`. */
  lemma {:induction false} SameSpanMembers(s: seq<Token>, lo: nat, hi: nat)
    ensures forall x :: x in SameSpan(s, lo, hi) <==> x in s && x.start == lo && x.end == hi
  {
    if s != [] {
      SameSpanMembers(s[1..], lo, hi);
      assert s == [s[0]] + s[1..];
    }
  }

  lemma {:induction false} InsertSameSpan(x: Token, s: seq<Token>, lo: nat, hi: nat)
    ensures SameSpan(Insert(x, s), lo, hi)
         == (if x.start == lo && x.end == hi then [x] else []) + SameSpan(s, lo, hi)
  {
    var hx: seq<Token> := if x.start == lo && x.end == hi then [x] else [];
    if s == [] {
      assert SameSpan([x], lo, hi) == hx + SameSpan([], lo, hi);
    } else if KeyLe(x, s[0]) {
      assert ([x] + s)[1..] == s;
      assert SameSpan([x] + s, lo, hi) == hx + SameSpan(s, lo, hi);
    } else {
      var tail := Insert(x, s[1..]);
      var h0: seq<Token> := if s[0].start == lo && s[0].end == hi then [s[0]] else [];
      InsertSameSpan(x, s[1..], lo, hi);
      assert ([s[0]] + tail)[1..] == tail;
      assert SameSpan([s[0]] + tail, lo, hi) == h0 + SameSpan(tail, lo, hi);
      assert SameSpan(s, lo, hi) == h0 + SameSpan(s[1..], lo, hi);
      assert h0 == [] || hx == [];
    }
  }

  /** The sort is stable: tokens with equal spans keep their relative order. */
  lemma {:induction false} SortIsStable(s: seq<Token>, lo: nat, hi: nat)
    ensures SameSpan(Sort(s), lo, hi) == SameSpan(s, lo, hi)
  {
    if s != [] {
      SortIsStable(s[1..], lo, hi);
      InsertSameSpan(s[0], Sort(s[1..]), lo, hi);
    }
  }

  /** The first token of a span, when the input is ranked on ties, has the
      lowest rank among the tokens with that span. */
  lemma {:induction false} SameSpanHeadRank(s: seq<Token>, lo: nat, hi: nat)
    requires RankedOnTies(s)
    requires |SameSpan(s, lo, hi)| > 0
    ensures forall c :: (c in s && c.start == lo && c.end == hi) ==> Rank(SameSpan(s, lo, hi)[0].kind) <= Rank(c.kind)
  {
    if s[0].start == lo && s[0].end == hi {
      forall c | c in s && c.start == lo && c.end == hi
        ensures Rank(s[0].kind) <= Rank(c.kind)
      {
        var m :| 0 <= m < |s| && s[m] == c;
      }
    } else {
      RankedOnTiesTail(s);
      SameSpanHeadRank(s[1..], lo, hi);
      assert s == [s[0]] + s[1..];
    }
  }

  lemma RankedOnTiesTail(s: seq<Token>)
    requires s != [] && RankedOnTies(s)
    ensures RankedOnTies(s[1..])
  {
    forall i, j | 0 <= i < j < |s[1..]|
      ensures s[1..][i] == s[i + 1] && s[1..][j] == s[j + 1]
    {
    }
  }

  /** The first token of `s` with span `[lo, hi)` heads the filtered list. */
  lemma {:induction false} SameSpanFirst(s: seq<Token>, i: nat, lo: nat, hi: nat)
    requires i < |s| && s[i].start == lo && s[i].end == hi
    requires forall k :: 0 <= k < i ==> s[k].start != lo
    ensures |SameSpan(s, lo, hi)| > 0 && SameSpan(s, lo, hi)[0] == s[i]
  {
    if i > 0 {
      SameSpanFirst(s[1..], i - 1, lo, hi);
    }
  }

  /** The greedy left-to-right selection with `lastEnd`. */
  function Select(s: seq<Token>, lastEnd: nat): (r: seq<Token>)
    ensures |r| <= |s|
  {
    if s == [] then []
    else if s[0].start >= lastEnd then [s[0]] + Select(s[1..], s[0].end)
    else Select(s[1..], lastEnd)
  }

  /** Every kept token is one of the candidates. */
  lemma {:induction false} SelectFromInput(s: seq<Token>, lastEnd: nat)
    ensures forall t :: t in Select(s, lastEnd) ==> t in s
  {
    if s != [] {
      if s[0].start >= lastEnd {
        SelectFromInput(s[1..], s[0].end);
      } else {
        SelectFromInput(s[1..], lastEnd);
      }
      assert s == [s[0]] + s[1..];
    }
  }

  /** When no candidate is empty, the kept tokens all start at or after
      `lastEnd` and are pairwise disjoint and ascending. */
  lemma {:induction false} SelectAscending(s: seq<Token>, lastEnd: nat)
    requires NonEmptySpans(s)
    ensures forall i :: 0 <= i < |Select(s, lastEnd)| ==> lastEnd <= Select(s, lastEnd)[i].start
    ensures Ascending(Select(s, lastEnd))
  {
    if s != [] {
      assert NonEmptySpans(s[1..]) by {
        forall i | 0 <= i < |s[1..]| ensures s[1..][i].start < s[1..][i].end {
          assert s[1..][i] == s[i + 1];
        }
      }
      if s[0].start >= lastEnd {
        SelectAscending(s[1..], s[0].end);
        AscendingCons(s[0], Select(s[1..], s[0].end));
      } else {
        SelectAscending(s[1..], lastEnd);
      }
    }
  }

  /** `a` is `b` with some elements left out. */
  predicate IsSubsequence(a: seq<Token>, b: seq<Token>)
    decreases |b|
  {
    if b == [] then a == []
    else (a != [] && a[0] == b[0] && IsSubsequence(a[1..], b[1..])) || IsSubsequence(a, b[1..])
  }

  /** The kept tokens are the candidates with some left out, in their order. */
  lemma {:induction false} SelectIsSubsequence(s: seq<Token>, lastEnd: nat)
    ensures IsSubsequence(Select(s, lastEnd), s)
  {
    if s != [] {
      if s[0].start >= lastEnd {
        SelectIsSubsequence(s[1..], s[0].end);
        assert ([s[0]] + Select(s[1..], s[0].end))[1..] == Select(s[1..], s[0].end);
      } else {
        SelectIsSubsequence(s[1..], lastEnd);
      }
    }
  }

  predicate SortedByStart(s: seq<Token>) {
    forall i, j :: 0 <= i < j < |s| ==> s[i].start <= s[j].start
  }

  /** Every token of `s` is kept in `r`, lies before `lastEnd`, or starts
      inside a token of `r`. */
  predicate Accounted(s: seq<Token>, lastEnd: nat, r: seq<Token>) {
    forall c :: c in s ==> c in r || c.start < lastEnd || Covered(r, c.start)
  }

  /** A candidate is dropped only when it starts inside a kept token (or
      before the initial `lastEnd`). */
  lemma {:induction false} SelectCovers(s: seq<Token>, lastEnd: nat)
    requires SortedByStart(s)
    ensures Accounted(s, lastEnd, Select(s, lastEnd))
  {
    if s != [] {
      assert SortedByStart(s[1..]);
      if s[0].start >= lastEnd {
        SelectCovers(s[1..], s[0].end);
        SelectCoversKept(s, lastEnd);
      } else {
        SelectCovers(s[1..], lastEnd);
        SelectCoversSkipped(s, lastEnd);
      }
    }
  }

  lemma SelectCoversKept(s: seq<Token>, lastEnd: nat)
    requires s != [] && SortedByStart(s) && s[0].start >= lastEnd
    requires Accounted(s[1..], s[0].end, Select(s[1..], s[0].end))
    ensures Accounted(s, lastEnd, Select(s, lastEnd))
  {
    var tail := s[1..];
    var rest := Select(tail, s[0].end);
    var r := Select(s, lastEnd);
    assert r == [s[0]] + rest;
    forall c | c in s
      ensures c in r || c.start < lastEnd || Covered(r, c.start)
    {
      if c != s[0] {
        var m :| 0 <= m < |s| && s[m] == c;
        assert c in tail by { assert tail[m - 1] == c; }
        if c in rest {
          assert c in r;
        } else if c.start < s[0].end {
          assert s[0].start <= c.start;
          assert r[0].start <= c.start < r[0].end;
        } else {
          var i :| 0 <= i < |rest| && rest[i].start <= c.start < rest[i].end;
          assert r[i + 1] == rest[i];
        }
      }
    }
  }

  lemma SelectCoversSkipped(s: seq<Token>, lastEnd: nat)
    requires s != [] && s[0].start < lastEnd
    requires Accounted(s[1..], lastEnd, Select(s[1..], lastEnd))
    ensures Accounted(s, lastEnd, Select(s, lastEnd))
  {
    forall c | c in s
      ensures c in Select(s, lastEnd) || c.start < lastEnd || Covered(Select(s, lastEnd), c.start)
    {
      if c != s[0] {
        var m :| 0 <= m < |s| && s[m] == c;
        assert s[1..][m - 1] == c;
      }
    }
  }

  lemma NonEmptySpansTail(s: seq<Token>)
    requires s != [] && NonEmptySpans(s)
    ensures NonEmptySpans(s[1..])
  {
    forall i | 0 <= i < |s[1..]| ensures s[1..][i].start < s[1..][i].end {
      assert s[1..][i] == s[i + 1];
    }
  }

  /** Every kept token is the first candidate with its start: `i` is its
      index in `s`, and no earlier candidate starts where it starts. */
  lemma {:induction false} KeptIndex(s: seq<Token>, lastEnd: nat, t: Token) returns (i: nat)
    requires NonEmptySpans(s)
    requires t in Select(s, lastEnd)
    ensures i < |s| && s[i] == t && lastEnd <= t.start
    ensures forall k :: 0 <= k < i ==> s[k].start != t.start
  {
    var r := Select(s, lastEnd);
    NonEmptySpansTail(s);
    if s[0].start >= lastEnd {
      if t == s[0] {
        i := 0;
      } else {
        assert r == [s[0]] + Select(s[1..], s[0].end);
        var j := KeptIndex(s[1..], s[0].end, t);
        i := j + 1;
        forall k | 0 <= k < i ensures s[k].start != t.start {
          if k > 0 {
            assert s[k] == s[1..][k - 1];
          }
        }
      }
    } else {
      var j := KeptIndex(s[1..], lastEnd, t);
      i := j + 1;
      forall k | 0 <= k < i ensures s[k].start != t.start {
        if k > 0 {
          assert s[k] == s[1..][k - 1];
        }
      }
    }
  }

  /** A kept token heads the tokens of `s` that share its span. */
  lemma SelectedHeadsSpan(s: seq<Token>, lastEnd: nat, t: Token)
    requires NonEmptySpans(s)
    requires t in Select(s, lastEnd)
    ensures |SameSpan(s, t.start, t.end)| > 0 && SameSpan(s, t.start, t.end)[0] == t
  {
    var i := KeptIndex(s, lastEnd, t);
    SameSpanFirst(s, i, t.start, t.end);
  }

  /** Among candidates with the same start, the kept one is the longest. */
  lemma SelectKeepsLongest(s: seq<Token>, lastEnd: nat)
    requires SortedByKey(s)
    requires NonEmptySpans(s)
    ensures forall t, c :: t in Select(s, lastEnd) && c in s && c.start == t.start ==> c.end <= t.end
  {
    forall t, c | t in Select(s, lastEnd) && c in s && c.start == t.start
      ensures c.end <= t.end
    {
      var i := KeptIndex(s, lastEnd, t);
      var m :| 0 <= m < |s| && s[m] == c;
      if i < m {
        assert KeyLe(s[i], s[m]);
      }
    }
  }
}
