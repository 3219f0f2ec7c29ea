/** `PDFBuilder.formatClauseText` (services/PDFBuilder.ts:79-86): sanitizes a
    clause, cuts it at every period followed by white space, and turns each
    non-blank piece into a paragraph ending in a period. */
module Formatter {
  import opened Strings
  import opened Sanitizer

  /** No period in `s` is followed by white space: the regular expression
      `/\.\s+/` does not match anywhere in `s`. */
  predicate NoBreak(s: string)
  {
    forall j :: 0 <= j < |s| - 1 ==> !BreakAt(s, j)
  }

  /** A period at `j` and white space right after it. */
  predicate BreakAt(s: string, j: int)
    requires 0 <= j < |s| - 1
  {
    s[j] == '.' && IsWhitespace(s[j + 1])
  }

  lemma NoBreakCons(c: char, s: string)
    requires NoBreak(s)
    requires c == '.' ==> s == [] || !IsWhitespace(s[0])
    ensures NoBreak([c] + s)
  {
    var t := [c] + s;
    forall j | 0 <= j < |t| - 1 ensures !BreakAt(t, j) {
      if j > 0 {
        assert !BreakAt(s, j - 1);
        assert t[j] == s[j - 1] && t[j + 1] == s[j];
      }
    }
  }

  lemma NoBreakSlice(s: string, i: nat, j: nat)
    requires i <= j <= |s| && NoBreak(s)
    ensures NoBreak(s[i..j])
    ensures j == |s| ==> NoBreak(s[i..])
  {
    assert j == |s| ==> s[i..j] == s[i..];
    var t := s[i..j];
    forall k | 0 <= k < |t| - 1 ensures !BreakAt(t, k) {
      assert !BreakAt(s, i + k);
      assert t[k] == s[i + k] && t[k + 1] == s[i + k + 1];
    }
  }

  /** `text.split(/\.\s+/)`: the pieces between the matches, where a match is a
      period together with all the white space after it. */
  function SplitSentences(s: string): (r: seq<string>)
    ensures |r| >= 1
    ensures StartsWith(s, r[0])
    ensures forall i :: 0 <= i < |r| ==> NoBreak(r[i])
    decreases |s|
  {
    if s == [] then [""]
    else if |s| >= 2 && s[0] == '.' && IsWhitespace(s[1]) then [""] + SplitSentences(TrimStart(s[1..]))
    else
      var rest := SplitSentences(s[1..]);
      assert rest[0] != [] ==> rest[0][0] == s[1];
      NoBreakCons(s[0], rest[0]);
      [[s[0]] + rest[0]] + rest[1..]
  }

  /** `.filter(s => s.trim()).map(s => s.trim() + '.')`. */
  function Paragraphs(pieces: seq<string>): seq<string>
  {
    if pieces == [] then []
    else
      var t := Trim(pieces[0]);
      (if t == [] then [] else [t + "."]) + Paragraphs(pieces[1..])
  }

  /** `formatClauseText`: the paragraphs joined by blank lines. */
  function FormatClauseText(text: string): string
  {
    Join(Paragraphs(SplitSentences(Sanitize(text))), "\n\n")
  }

  /** A paragraph: a non-empty trimmed sentence without an inner break, then a
      period. */
  predicate IsParagraph(p: string)
  {
    |p| >= 2 && p[|p| - 1] == '.' && IsTrimmed(p[..|p| - 1]) && NoBreak(p[..|p| - 1])
  }

  /** Every paragraph is a non-blank piece, trimmed, with a period appended. */
  lemma {:induction false} ParagraphsShape(pieces: seq<string>)
    requires forall i :: 0 <= i < |pieces| ==> NoBreak(pieces[i])
    ensures forall i :: 0 <= i < |Paragraphs(pieces)| ==> IsParagraph(Paragraphs(pieces)[i])
  {
    if pieces != [] {
      ParagraphsShape(pieces[1..]);
      var t := Trim(pieces[0]);
      if t != [] {
        var k := |pieces[0]| - |TrimStart(pieces[0])|;
        NoBreakSlice(pieces[0], k, k + |t|);
        assert (t + ".")[..|t|] == t;
      }
    }
  }

  /** Formatted clause text is a sequence of paragraphs separated by blank lines,
      and it is empty exactly when no piece of the sanitized text is non-blank. */
  lemma FormatShape(text: string)
    ensures var ps := Paragraphs(SplitSentences(Sanitize(text)));
      && (forall i :: 0 <= i < |ps| ==> IsParagraph(ps[i]))
      && FormatClauseText(text) == Join(ps, "\n\n")
      && (FormatClauseText(text) == [] <==> ps == [])
  {
    var ps := Paragraphs(SplitSentences(Sanitize(text)));
    ParagraphsShape(SplitSentences(Sanitize(text)));
    if ps != [] {
      JoinHead(ps, "\n\n");
      assert |Join(ps, "\n\n")| >= |ps[0]| >= 2;
    }
  }

  /** A period and one space at the front make an empty first piece. */
  lemma SplitAtBreak(b: string)
    requires b == [] || !IsWhitespace(b[0])
    ensures SplitSentences(". " + b) == [""] + SplitSentences(b)
  {
    var s := ". " + b;
    assert s[0] == '.' && IsWhitespace(s[1]);
    assert s[1..] == " " + b;
    TrimStartSkips(" ", b);
  }

  /** A character that does not start a break joins the first piece. */
  lemma SplitPrepend(c: char, t: string, first: string, rest: seq<string>)
    requires t != [] && !(c == '.' && IsWhitespace(t[0]))
    requires SplitSentences(t) == [first] + rest
    ensures SplitSentences([c] + t) == [[c] + first] + rest
  {
    var s := [c] + t;
    assert s[0] == c && s[1] == t[0] && s[1..] == t;
    var r := SplitSentences(t);
    assert r[0] == first && r[1..] == rest;
  }

  /** The inductive step of `SplitSentencesAround`: the first character of a
      piece joins the piece the rest starts with. */
  lemma SplitAroundStep(a: string, b: string, rest: seq<string>)
    requires a != [] && NoBreak(a)
    requires SplitSentences(a[1..] + ". " + b) == [a[1..]] + rest
    ensures SplitSentences(a + ". " + b) == [a] + rest
  {
    var t := a[1..] + ". " + b;
    assert t[0] == (if |a| >= 2 then a[1] else '.');
    assert |a| >= 2 ==> !BreakAt(a, 0);
    SplitPrepend(a[0], t, a[1..], rest);
    assert [a[0]] + t == a + ". " + b;
    assert [a[0]] + a[1..] == a;
  }

  /** Text that a period and white space would cut into the given pieces. */
  lemma {:induction false} SplitSentencesAround(a: string, b: string)
    requires NoBreak(a) && (b == [] || !IsWhitespace(b[0]))
    ensures SplitSentences(a + ". " + b) == [a] + SplitSentences(b)
    decreases |a|
  {
    if a == [] {
      assert a + ". " + b == ". " + b;
      SplitAtBreak(b);
    } else {
      NoBreakSlice(a, 1, |a|);
      SplitSentencesAround(a[1..], b);
      SplitAroundStep(a, b, SplitSentences(b));
    }
  }

  lemma {:induction false} SplitSentencesNoBreak(s: string)
    requires NoBreak(s)
    ensures SplitSentences(s) == [s]
    decreases |s|
  {
    if s != [] {
      assert |s| >= 2 ==> !BreakAt(s, 0);
      NoBreakSlice(s, 1, |s|);
      SplitSentencesNoBreak(s[1..]);
      assert [s[0]] + s[1..] == s;
    }
  }

  /** A sentence as `formatClauseText` sees it: non-empty, trimmed, without a
      period followed by white space inside it. */
  predicate IsSentence(s: string)
  {
    s != [] && IsTrimmed(s) && NoBreak(s)
  }

  /** Sentences joined by ". " are cut back into exactly those sentences. */
  lemma {:induction false} SplitJoinedSentences(sentences: seq<string>)
    requires |sentences| >= 1
    requires forall i :: 0 <= i < |sentences| ==> IsSentence(sentences[i])
    ensures SplitSentences(Join(sentences, ". ")) == sentences
  {
    if |sentences| == 1 {
      SplitSentencesNoBreak(sentences[0]);
    } else {
      var tail := Join(sentences[1..], ". ");
      SplitJoinedSentences(sentences[1..]);
      JoinHead(sentences[1..], ". ");
      assert tail[0] == sentences[1][0];
      SplitSentencesAround(sentences[0], tail);
      assert Join(sentences, ". ") == sentences[0] + ". " + tail;
      assert sentences == [sentences[0]] + sentences[1..];
    }
  }

  /** Each sentence with a period appended. */
  function WithPeriods(sentences: seq<string>): (r: seq<string>)
    ensures |r| == |sentences|
    ensures forall i :: 0 <= i < |r| ==> r[i] == sentences[i] + "."
  {
    seq(|sentences|, i requires 0 <= i < |sentences| => sentences[i] + ".")
  }

  /** The first sentence's paragraph, then the others'. */
  lemma WithPeriodsCons(sentences: seq<string>)
    requires sentences != []
    ensures WithPeriods(sentences) == [sentences[0] + "."] + WithPeriods(sentences[1..])
  {
    var r := WithPeriods(sentences);
    var t := [sentences[0] + "."] + WithPeriods(sentences[1..]);
    forall i | 0 <= i < |r|
      ensures r[i] == t[i]
    {
      if i > 0 {
        assert t[i] == WithPeriods(sentences[1..])[i - 1];
      }
    }
  }

  lemma {:induction false} ParagraphsOfSentences(sentences: seq<string>)
    requires forall i :: 0 <= i < |sentences| ==> IsSentence(sentences[i])
    ensures Paragraphs(sentences) == WithPeriods(sentences)
  {
    if sentences != [] {
      var rest := sentences[1..];
      assert Paragraphs(rest) == WithPeriods(rest) by {
        ParagraphsOfSentences(rest);
      }
      assert Trim(sentences[0]) == sentences[0] by {
        TrimFixpoint(sentences[0]);
      }
      calc {
        Paragraphs(sentences);
      ==
        [sentences[0] + "."] + Paragraphs(rest);
      ==
        [sentences[0] + "."] + WithPeriods(rest);
      == { WithPeriodsCons(sentences); }
        WithPeriods(sentences);
      }
    }
  }

  lemma SentencesClean(sentences: seq<string>)
    requires |sentences| >= 1
    requires forall i :: 0 <= i < |sentences| ==> IsSentence(sentences[i]) && IsClean(sentences[i])
    ensures IsClean(Join(sentences, ". "))
  {
    assert AllSafe(". ") && NoDoubleSpace(". ");
    JoinSafe(sentences, ". ");
    JoinTrimmed(sentences, ". ");
  }

  /** Clean sentences joined by ". " come back one per paragraph, each with its
      period restored, separated by blank lines. */
  lemma FormatJoinedSentences(sentences: seq<string>)
    requires |sentences| >= 1
    requires forall i :: 0 <= i < |sentences| ==> IsSentence(sentences[i]) && IsClean(sentences[i])
    ensures FormatClauseText(Join(sentences, ". ")) == Join(WithPeriods(sentences), "\n\n")
  {
    var text := Join(sentences, ". ");
    SentencesClean(sentences);
    SanitizeFixpoint(text);
    assert Sanitize(text) == text;
    SplitJoinedSentences(sentences);
    ParagraphsOfSentences(sentences);
  }

  lemma JoinEndsWithLast(parts: seq<string>, sep: string)
    requires |parts| >= 1
    ensures EndsWith(Join(parts, sep), parts[|parts| - 1])
  {
    var n := |parts| - 1;
    if n > 0 {
      JoinSnoc(parts[..n], parts[n], sep);
      assert parts[..n] + [parts[n]] == parts;
    }
  }

  /** A joined text ends in ".." when its last part is a text ending in a
      period with one more period appended. */
  lemma DotsAtEnd(ps: seq<string>, last: string, sep: string)
    requires |ps| >= 1 && ps[|ps| - 1] == last + "." && EndsWith(last, ".")
    ensures EndsWith(Join(ps, sep), "..")
  {
    var p := ps[|ps| - 1];
    assert p[|p| - 2..] == ".." by {
      assert p[|p| - 2] == '.' && p[|p| - 1] == '.';
    }
    JoinEndsWithLast(ps, sep);
    var out := Join(ps, sep);
    assert out[|out| - |p|..] == p;
    assert out[|out| - 2..] == p[|p| - 2..];
  }

  /** A last sentence that already ends in a period gives a last paragraph,
      and so a joined text, ending in "..". */
  lemma LastParagraphDoubled(sentences: seq<string>)
    requires |sentences| >= 1 && EndsWith(sentences[|sentences| - 1], ".")
    ensures EndsWith(Join(WithPeriods(sentences), "\n\n"), "..")
  {
    DotsAtEnd(WithPeriods(sentences), sentences[|sentences| - 1], "\n\n");
  }

  /** The last piece keeps its own period: clause text whose last sentence ends
      in a period yields a final paragraph ending in "..". */
  lemma TrailingPeriodDoubled(sentences: seq<string>)
    requires |sentences| >= 1
    requires forall i :: 0 <= i < |sentences| ==> IsSentence(sentences[i]) && IsClean(sentences[i])
    requires EndsWith(sentences[|sentences| - 1], ".")
    ensures EndsWith(FormatClauseText(Join(sentences, ". ")), "..")
  {
    FormatJoinedSentences(sentences);
    LastParagraphDoubled(sentences);
  }
}
