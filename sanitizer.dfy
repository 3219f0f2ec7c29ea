/** `PDFBuilder.sanitizeText` (services/PDFBuilder.ts:110-117): the chain of
    regular-expression replacements that cleans contract text before it is
    parsed or formatted. */
module Sanitizer {
  import opened Strings

  /** The class `[\x00-\x09\x0B\x0C\x0E-\x1F\x7F-\x9F]` of the first replacement:
      the C0 controls except line feed and carriage return (tab included), DEL,
      and the C1 controls. */
  predicate IsStrippedControl(c: char)
  {
    c <= '\U{9}' || c == '\U{B}' || c == '\U{C}' || ('\U{E}' <= c <= '\U{1F}') || ('\U{7F}' <= c <= '\U{9F}')
  }

  /** A character that can survive sanitizing. */
  predicate IsSafeChar(c: char)
  {
    !IsStrippedControl(c) && c != '<' && c != '>' && c != '\r'
  }

  predicate AllSafe(s: string)
  {
    forall c :: c in s ==> IsSafeChar(c)
  }

  predicate NoDoubleSpace(s: string)
  {
    forall i :: 0 <= i < |s| - 1 ==> !DoubleSpaceAt(s, i)
  }

  /** Two spaces starting at `i`. */
  predicate DoubleSpaceAt(s: string, i: int)
    requires 0 <= i < |s| - 1
  {
    s[i] == ' ' && s[i + 1] == ' '
  }

  /** What sanitized text looks like: only safe characters, no two spaces in a
      row, and no white space at either end. */
  predicate IsClean(s: string)
  {
    AllSafe(s) && NoDoubleSpace(s) && IsTrimmed(s)
  }

  lemma NoDoubleSpaceConcat(a: string, b: string)
    requires NoDoubleSpace(a) && NoDoubleSpace(b)
    requires a == [] || b == [] || !(a[|a| - 1] == ' ' && b[0] == ' ')
    ensures NoDoubleSpace(a + b)
  {
    var s := a + b;
    forall i | 0 <= i < |s| - 1 ensures !DoubleSpaceAt(s, i) {
      if i + 1 < |a| {
        assert !DoubleSpaceAt(a, i);
        assert s[i] == a[i] && s[i + 1] == a[i + 1];
      } else if i >= |a| {
        assert !DoubleSpaceAt(b, i - |a|);
        assert s[i] == b[i - |a|] && s[i + 1] == b[i + 1 - |a|];
      }
    }
  }

  lemma NoDoubleSpaceSlice(s: string, i: nat, j: nat)
    requires i <= j <= |s| && NoDoubleSpace(s)
    ensures NoDoubleSpace(s[i..j])
    ensures j == |s| ==> NoDoubleSpace(s[i..])
  {
    assert j == |s| ==> s[i..j] == s[i..];
    var t := s[i..j];
    forall k | 0 <= k < |t| - 1 ensures !DoubleSpaceAt(t, k) {
      assert !DoubleSpaceAt(s, i + k);
      assert t[k] == s[i + k] && t[k + 1] == s[i + k + 1];
    }
  }

  /** Step 1: `.replace(/[\x00-\x09\x0B\x0C\x0E-\x1F\x7F-\x9F]/g, '')`. */
  function StripControl(s: string): (r: string)
    ensures forall c :: c in r ==> c in s && !IsStrippedControl(c)
    ensures (forall c :: c in s ==> !IsStrippedControl(c)) ==> r == s
  {
    if s == [] then []
    else
      assert s == [s[0]] + s[1..];
      (if IsStrippedControl(s[0]) then [] else [s[0]]) + StripControl(s[1..])
  }

  /** A character outside the class of step 1. */
  predicate IsNotStripped(c: char)
  {
    !IsStrippedControl(c)
  }

  /** Step 1 removes exactly the characters of its class: none of them is
      left, and every other character is kept, in its order. */
  lemma {:induction false} StripControlKeeps(s: string)
    ensures forall c :: c in StripControl(s) ==> !IsStrippedControl(c)
    ensures Filter(StripControl(s), IsNotStripped) == Filter(s, IsNotStripped)
  {
    if s != [] {
      StripControlKeeps(s[1..]);
      var h := if IsStrippedControl(s[0]) then [] else [s[0]];
      FilterConcat(h, StripControl(s[1..]), IsNotStripped);
      FilterAll(h, IsNotStripped);
    }
  }

  function EscapeChar(c: char): char
  {
    if c == '<' || c == '>' then '_' else c
  }

  /** Step 2: `.replace(/[<>]/g, '_')`: each angle bracket becomes `_` where it
      stands, and every other character stays. */
  function EscapeAngleBrackets(s: string): (r: string)
    ensures |r| == |s|
    ensures forall i :: 0 <= i < |s| && (s[i] == '<' || s[i] == '>') ==> r[i] == '_'
    ensures forall i :: 0 <= i < |s| && s[i] != '<' && s[i] != '>' ==> r[i] == s[i]
    ensures forall c :: c in r ==> c == '_' || (c in s && c != '<' && c != '>')
    ensures '<' !in s && '>' !in s ==> r == s
  {
    MapChars(s, EscapeChar)
  }

  predicate IsBlank(c: char)
  {
    c == ' ' || c == '\t'
  }

  function SkipBlanks(s: string): (r: string)
    ensures |r| <= |s| && r == s[|s| - |r|..]
    ensures r == [] || !IsBlank(r[0])
  {
    if s != [] && IsBlank(s[0]) then SkipBlanks(s[1..]) else s
  }

  /** Step 3: `.replace(/[ \t]+/g, ' ')`: every run of spaces and tabs becomes
      one space. */
  function CollapseBlanks(s: string): (r: string)
    ensures (r == []) == (s == [])
    ensures r != [] ==> r[0] == (if IsBlank(s[0]) then ' ' else s[0])
    ensures forall c :: c in r ==> c == ' ' || (c in s && c != '\t')
    ensures NoDoubleSpace(r)
    decreases |s|
  {
    if s == [] then []
    else if IsBlank(s[0]) then
      var t := SkipBlanks(s[1..]);
      var rest := CollapseBlanks(t);
      assert forall c :: c in t ==> c in s;
      NoDoubleSpaceConcat([' '], rest);
      [' '] + rest
    else
      var rest := CollapseBlanks(s[1..]);
      NoDoubleSpaceConcat([s[0]], rest);
      [s[0]] + rest
  }

  lemma {:induction false} CollapseBlanksUnchanged(s: string)
    requires '\t' !in s && NoDoubleSpace(s)
    ensures CollapseBlanks(s) == s
    decreases |s|
  {
    if s != [] {
      NoDoubleSpaceSlice(s, 1, |s|);
      assert s == [s[0]] + s[1..];
      if IsBlank(s[0]) {
        assert |s| >= 2 ==> !DoubleSpaceAt(s, 0);
        assert s[1..] == [] || !IsBlank(s[1]);
        assert SkipBlanks(s[1..]) == s[1..];
      }
      CollapseBlanksUnchanged(s[1..]);
    }
  }

  predicate IsNotBlank(c: char)
  {
    !IsBlank(c)
  }

  lemma {:induction false} SkipBlanksKeeps(s: string)
    ensures Filter(SkipBlanks(s), IsNotBlank) == Filter(s, IsNotBlank)
  {
    if s != [] && IsBlank(s[0]) {
      SkipBlanksKeeps(s[1..]);
    }
  }

  /** Collapsing keeps every character other than a space or tab, in order. */
  lemma {:induction false} CollapseBlanksKeeps(s: string)
    ensures Filter(CollapseBlanks(s), IsNotBlank) == Filter(s, IsNotBlank)
    decreases |s|
  {
    if s != [] {
      if IsBlank(s[0]) {
        var t := SkipBlanks(s[1..]);
        SkipBlanksKeeps(s[1..]);
        CollapseBlanksKeeps(t);
        assert ([' '] + CollapseBlanks(t))[1..] == CollapseBlanks(t);
      } else {
        CollapseBlanksKeeps(s[1..]);
        assert ([s[0]] + CollapseBlanks(s[1..]))[1..] == CollapseBlanks(s[1..]);
      }
    }
  }

  /** The replacement read left to right: a space or tab that follows another
      one is dropped, any other space or tab is written as one space, and every
      other character is copied. */
  function SqueezeBlanks(s: string, afterBlank: bool): string
  {
    if s == [] then []
    else if IsBlank(s[0]) then (if afterBlank then [] else " ") + SqueezeBlanks(s[1..], true)
    else [s[0]] + SqueezeBlanks(s[1..], false)
  }

  lemma {:induction false} SqueezeSkipsBlanks(s: string)
    ensures SqueezeBlanks(s, true) == SqueezeBlanks(SkipBlanks(s), true)
  {
    if s != [] && IsBlank(s[0]) {
      SqueezeSkipsBlanks(s[1..]);
      assert [] + SqueezeBlanks(s[1..], true) == SqueezeBlanks(s[1..], true);
    }
  }

  /** Collapsing is the left-to-right reading: each run of spaces and tabs
      becomes a single space and nothing else changes. */
  lemma {:induction false} CollapseBlanksSqueezes(s: string)
    ensures CollapseBlanks(s) == SqueezeBlanks(s, false)
    decreases |s|
  {
    if s != [] {
      if IsBlank(s[0]) {
        var t := SkipBlanks(s[1..]);
        SqueezeSkipsBlanks(s[1..]);
        CollapseBlanksSqueezes(t);
        assert SqueezeBlanks(t, true) == SqueezeBlanks(t, false);
      } else {
        CollapseBlanksSqueezes(s[1..]);
      }
    }
  }

  /** Step 4: `.replace(/\r\n/g, '\n')`, scanning left to right. */
  function ReplaceCrLf(s: string): string
  {
    if s == [] then []
    else if |s| >= 2 && s[0] == '\r' && s[1] == '\n' then "\n" + ReplaceCrLf(s[2..])
    else [s[0]] + ReplaceCrLf(s[1..])
  }

  /** Replacing `\r\n` empties only the empty text, introduces no new
      character, and leaves text without `\r` alone. */
  lemma {:induction false} ReplaceCrLfFacts(s: string)
    ensures (ReplaceCrLf(s) == []) == (s == [])
    ensures ReplaceCrLf(s) != [] ==> ReplaceCrLf(s)[0] == s[0] || (s[0] == '\r' && ReplaceCrLf(s)[0] == '\n')
    ensures forall c :: c in ReplaceCrLf(s) ==> c in s
    ensures '\r' !in s ==> ReplaceCrLf(s) == s
  {
    if s == [] {
    } else if |s| >= 2 && s[0] == '\r' && s[1] == '\n' {
      ReplaceCrLfFacts(s[2..]);
      assert forall c :: c in s[2..] ==> c in s;
    } else {
      ReplaceCrLfFacts(s[1..]);
      assert s == [s[0]] + s[1..];
    }
  }

  lemma {:induction false} ReplaceCrLfKeepsNoDoubleSpace(s: string)
    requires NoDoubleSpace(s)
    ensures NoDoubleSpace(ReplaceCrLf(s))
  {
    if s == [] {
    } else if |s| >= 2 && s[0] == '\r' && s[1] == '\n' {
      NoDoubleSpaceSlice(s, 2, |s|);
      ReplaceCrLfKeepsNoDoubleSpace(s[2..]);
      NoDoubleSpaceConcat("\n", ReplaceCrLf(s[2..]));
    } else {
      assert |s| >= 2 ==> !DoubleSpaceAt(s, 0);
      NoDoubleSpaceSlice(s, 1, |s|);
      ReplaceCrLfKeepsNoDoubleSpace(s[1..]);
      ReplaceCrLfFacts(s[1..]);
      NoDoubleSpaceConcat([s[0]], ReplaceCrLf(s[1..]));
    }
  }

  /** A leading `\r\n` becomes `\n` in front of the rest's replacement. */
  lemma PairPrepend(t: string, rt: string)
    requires ReplaceCrLf(t) == rt
    ensures ReplaceCrLf("\r\n" + t) == "\n" + rt
  {
    assert ("\r\n" + t)[2..] == t;
  }

  /** A leading character that does not start a pair is copied in front of the
      rest's replacement. */
  lemma CharPrepend(c: char, t: string, rt: string)
    requires t == [] || !(c == '\r' && t[0] == '\n')
    requires ReplaceCrLf(t) == rt
    ensures ReplaceCrLf([c] + t) == [c] + rt
  {
    assert ([c] + t)[1..] == t;
  }

  /** Each `\r\n` becomes `\n`, and the text on either side is replaced on its
      own. */
  lemma {:induction false} ReplaceCrLfPair(a: string, b: string)
    ensures ReplaceCrLf(a + "\r\n" + b) == ReplaceCrLf(a) + "\n" + ReplaceCrLf(b)
    decreases |a|
  {
    if a == [] {
      PairPrepend(b, ReplaceCrLf(b));
      assert a + "\r\n" + b == "\r\n" + b;
    } else if |a| >= 2 && a[0] == '\r' && a[1] == '\n' {
      var t := a[2..];
      ReplaceCrLfPair(t, b);
      assert a == "\r\n" + t;
      PairCase(t, b, ReplaceCrLf(t), ReplaceCrLf(b));
    } else {
      var t := a[1..];
      ReplaceCrLfPair(t, b);
      assert a == [a[0]] + t;
      CharCase(a[0], t, b, ReplaceCrLf(t), ReplaceCrLf(b));
    }
  }

  /** The step of `ReplaceCrLfPair` past a leading `\r\n`. */
  lemma PairCase(t: string, b: string, rt: string, rb: string)
    requires ReplaceCrLf(t) == rt && ReplaceCrLf(t + "\r\n" + b) == rt + "\n" + rb
    ensures ReplaceCrLf("\r\n" + t + "\r\n" + b) == ReplaceCrLf("\r\n" + t) + "\n" + rb
  {
    PairPrepend(t + "\r\n" + b, rt + "\n" + rb);
    PairPrepend(t, rt);
    assert "\r\n" + t + "\r\n" + b == "\r\n" + (t + "\r\n" + b);
    assert "\n" + (rt + "\n" + rb) == ("\n" + rt) + "\n" + rb;
  }

  /** The step of `ReplaceCrLfPair` past a leading character that does not
      start a pair. */
  lemma CharCase(c: char, t: string, b: string, rt: string, rb: string)
    requires t == [] || !(c == '\r' && t[0] == '\n')
    requires ReplaceCrLf(t) == rt && ReplaceCrLf(t + "\r\n" + b) == rt + "\n" + rb
    ensures ReplaceCrLf([c] + t + "\r\n" + b) == ReplaceCrLf([c] + t) + "\n" + rb
  {
    var u := t + "\r\n" + b;
    assert u[0] == (if t == [] then '\r' else t[0]);
    CharPrepend(c, u, rt + "\n" + rb);
    CharPrepend(c, t, rt);
    assert [c] + t + "\r\n" + b == [c] + u;
    assert [c] + (rt + "\n" + rb) == ([c] + rt) + "\n" + rb;
  }

  /** A carriage return followed by a line feed at `i`. */
  predicate CrLfAt(s: string, i: int)
    requires 0 <= i < |s| - 1
  {
    s[i] == '\r' && s[i + 1] == '\n'
  }

  /** Text without a `\r\n` pair is left as it is. */
  lemma {:induction false} ReplaceCrLfNoPair(s: string)
    requires forall i :: 0 <= i < |s| - 1 ==> !CrLfAt(s, i)
    ensures ReplaceCrLf(s) == s
  {
    if s != [] {
      assert |s| >= 2 ==> !CrLfAt(s, 0);
      forall i | 0 <= i < |s[1..]| - 1 ensures !CrLfAt(s[1..], i) {
        assert !CrLfAt(s, i + 1);
      }
      ReplaceCrLfNoPair(s[1..]);
      assert [s[0]] + s[1..] == s;
    }
  }

  /** Replacing `\r\n` keeps every character other than a carriage return or
      line feed, in order. */
  lemma {:induction false} ReplaceCrLfFilter(s: string, keep: char -> bool)
    requires !keep('\r') && !keep('\n')
    ensures Filter(ReplaceCrLf(s), keep) == Filter(s, keep)
  {
    if s == [] {
    } else if |s| >= 2 && s[0] == '\r' && s[1] == '\n' {
      ReplaceCrLfFilter(s[2..], keep);
      assert ("\n" + ReplaceCrLf(s[2..]))[1..] == ReplaceCrLf(s[2..]);
      assert s[1..][1..] == s[2..];
    } else {
      ReplaceCrLfFilter(s[1..], keep);
      assert ([s[0]] + ReplaceCrLf(s[1..]))[1..] == ReplaceCrLf(s[1..]);
    }
  }

  function CrToLf(c: char): char
  {
    if c == '\r' then '\n' else c
  }

  /** Step 5: `.replace(/\r/g, '\n')`: each carriage return becomes a line feed
      where it stands, and every other character stays. */
  function ReplaceCr(s: string): (r: string)
    ensures |r| == |s|
    ensures forall i :: 0 <= i < |s| && s[i] == '\r' ==> r[i] == '\n'
    ensures forall i :: 0 <= i < |s| && s[i] != '\r' ==> r[i] == s[i]
    ensures '\r' !in r
    ensures forall c :: c in r ==> c == '\n' || c in s
    ensures NoDoubleSpace(s) ==> NoDoubleSpace(r)
    ensures '\r' !in s ==> r == s
  {
    var r := MapChars(s, CrToLf);
    assert NoDoubleSpace(s) ==> NoDoubleSpace(r) by {
      if NoDoubleSpace(s) {
        forall i | 0 <= i < |r| - 1 ensures !DoubleSpaceAt(r, i) {
          assert !DoubleSpaceAt(s, i);
        }
      }
    }
    r
  }

  lemma TrimKeeps(s: string)
    ensures forall c :: c in Trim(s) ==> c in s
    ensures NoDoubleSpace(s) ==> NoDoubleSpace(Trim(s))
  {
    var k := |s| - |TrimStart(s)|;
    var r := Trim(s);
    if NoDoubleSpace(s) {
      NoDoubleSpaceSlice(s, k, k + |r|);
    }
  }

  /** The characters the first two steps leave out. */
  predicate NoControlOrAngle(s: string)
  {
    forall c :: c in s ==> !IsStrippedControl(c) && c != '<' && c != '>'
  }

  lemma EscapedStripped(s: string)
    ensures NoControlOrAngle(EscapeAngleBrackets(StripControl(s)))
  {
    var s1 := StripControl(s);
    var s2 := EscapeAngleBrackets(s1);
    forall c | c in s2 ensures !IsStrippedControl(c) && c != '<' && c != '>' {
      if c != '_' {
        assert c in s1;
      }
    }
  }

  lemma CollapsedClean(s: string)
    requires NoControlOrAngle(s)
    ensures NoControlOrAngle(CollapseBlanks(s)) && NoDoubleSpace(CollapseBlanks(s))
  {
  }

  lemma NewlinesClean(s: string)
    requires NoControlOrAngle(s) && NoDoubleSpace(s)
    ensures AllSafe(ReplaceCr(ReplaceCrLf(s))) && NoDoubleSpace(ReplaceCr(ReplaceCrLf(s)))
  {
    var s4 := ReplaceCrLf(s);
    ReplaceCrLfKeepsNoDoubleSpace(s);
    ReplaceCrLfFacts(s);
    assert NoControlOrAngle(s4);
    var s5 := ReplaceCr(s4);
    forall c | c in s5 ensures IsSafeChar(c) {
      if c != '\n' {
        assert c in s4;
      }
    }
  }

  /** The replacements, before the final `trim()`. */
  function Replaced(text: string): (r: string)
    ensures AllSafe(r) && NoDoubleSpace(r)
  {
    var s2 := EscapeAngleBrackets(StripControl(text));
    EscapedStripped(text);
    var s3 := CollapseBlanks(s2);
    CollapsedClean(s2);
    NewlinesClean(s3);
    ReplaceCr(ReplaceCrLf(s3))
  }

  /** `sanitizeText`: the five replacements, then `trim()`. Its result is always
      clean. */
  function Sanitize(text: string): (r: string)
    ensures IsClean(r)
  {
    var s5 := Replaced(text);
    TrimKeeps(s5);
    Trim(s5)
  }

  /** Every stage leaves clean text as it is. */
  lemma ReplacedUnchanged(s: string)
    requires IsClean(s)
    ensures Replaced(s) == s
  {
    assert StripControl(s) == s;
    assert EscapeAngleBrackets(s) == s;
    assert !IsSafeChar('\t');
    CollapseBlanksUnchanged(s);
    assert !IsSafeChar('\r');
    ReplaceCrLfFacts(s);
  }

  /** Sanitizing changes nothing exactly when the text is already clean. */
  lemma SanitizeFixpoint(s: string)
    ensures Sanitize(s) == s <==> IsClean(s)
  {
    if IsClean(s) {
      ReplacedUnchanged(s);
      TrimFixpoint(s);
    }
  }

  /** Collapsing blanks turns a final pair of spaces into one and leaves text
      without tabs or double spaces alone. */
  lemma {:induction false} CollapseTrailing(a: string)
    requires '\t' !in a && NoDoubleSpace(a) && (a == [] || !IsBlank(a[|a| - 1]))
    ensures CollapseBlanks(a + "  ") == a + " "
    decreases |a|
  {
    var x := a + "  ";
    if a == [] {
      assert x == "  " && x[1..] == " " && " "[1..] == [];
      assert SkipBlanks(" ") == [];
    } else {
      assert x[1..] == a[1..] + "  ";
      NoDoubleSpaceSlice(a, 1, |a|);
      CollapseTrailing(a[1..]);
      if IsBlank(a[0]) {
        assert |a| >= 2;
        assert !DoubleSpaceAt(a, 0);
        assert !IsBlank(a[1]);
        assert SkipBlanks(x[1..]) == x[1..];
      }
      assert [a[0]] + a[1..] == a;
    }
  }

  /** The text between a leading line feed and a trailing line feed with two
      spaces: what a template literal indented by two spaces holds. */
  function Framed(s: string): string
  {
    "\n" + s + "\n  "
  }

  /** The replacements only shorten the final pair of spaces of a framed clean
      text. */
  lemma ReplacedFramed(s: string)
    requires IsClean(s) && s != []
    ensures Replaced(Framed(s)) == "\n" + s + "\n "
  {
    var inner := "\n" + s + "\n";
    var x := Framed(s);
    assert x == inner + "  ";
    assert EscapeAngleBrackets(StripControl(x)) == x by {
      assert IsSafeChar('\n') && IsSafeChar(' ');
      assert AllSafe(x);
      assert StripControl(x) == x;
    }
    var y := inner + " ";
    assert CollapseBlanks(x) == y by {
      NoDoubleSpaceConcat("\n", s);
      NoDoubleSpaceConcat("\n" + s, "\n");
      assert !IsSafeChar('\t');
      CollapseTrailing(inner);
    }
    assert ReplaceCr(ReplaceCrLf(y)) == y by {
      ReplaceCrLfFacts(y);
      assert !IsSafeChar('\r');
      assert '\r' !in y;
    }
  }

  /** Sanitizing a framed clean text gives back the text. */
  lemma SanitizeFramed(s: string)
    requires IsClean(s) && s != []
    ensures Sanitize(Framed(s)) == s
  {
    ReplacedFramed(s);
    TrimAround("\n", s, "\n ");
  }

  /** Sanitizing twice is the same as sanitizing once. */
  lemma SanitizeIdempotent(s: string)
    ensures Sanitize(Sanitize(s)) == Sanitize(s)
  {
    SanitizeFixpoint(Sanitize(s));
  }

  /** A character a reader sees: neither white space nor a removed control. */
  predicate IsInk(c: char)
  {
    !IsWhitespace(c) && !IsStrippedControl(c)
  }

  /** Trimming removes white space only. */
  lemma TrimKeepsInk(s: string)
    ensures Filter(Trim(s), IsInk) == Filter(s, IsInk)
  {
    var k := |s| - |TrimStart(s)|;
    var r := Trim(s);
    var m := k + |r|;
    assert s == s[..k] + r + s[m..];
    FilterConcat(s[..k] + r, s[m..], IsInk);
    FilterConcat(s[..k], r, IsInk);
    FilterNone(s[..k], IsInk);
    FilterNone(s[m..], IsInk);
  }

  lemma StripKeepsInk(s: string)
    ensures Filter(StripControl(s), IsInk) == Filter(s, IsInk)
  {
    StripControlKeeps(s);
    FilterFilter(StripControl(s), IsNotStripped, IsInk);
    FilterFilter(s, IsNotStripped, IsInk);
  }

  lemma EscapeKeepsInk(s: string)
    ensures Filter(EscapeAngleBrackets(s), IsInk) == EscapeAngleBrackets(Filter(s, IsInk))
  {
    assert forall c :: IsInk(EscapeChar(c)) == IsInk(c);
    FilterMapChars(s, EscapeChar, IsInk);
  }

  lemma CollapseKeepsInk(s: string)
    ensures Filter(CollapseBlanks(s), IsInk) == Filter(s, IsInk)
  {
    CollapseBlanksKeeps(s);
    FilterFilter(CollapseBlanks(s), IsNotBlank, IsInk);
    FilterFilter(s, IsNotBlank, IsInk);
  }

  lemma NewlinesKeepInk(s: string)
    ensures Filter(ReplaceCr(ReplaceCrLf(s)), IsInk) == Filter(s, IsInk)
  {
    var t := ReplaceCrLf(s);
    ReplaceCrLfFilter(s, IsInk);
    assert forall c :: IsInk(CrToLf(c)) == IsInk(c);
    FilterMapChars(t, CrToLf, IsInk);
    MapCharsIdentity(Filter(t, IsInk), CrToLf);
  }

  lemma ReplacedKeepsInk(s: string)
    ensures Filter(Replaced(s), IsInk) == EscapeAngleBrackets(Filter(s, IsInk))
  {
    var s1 := StripControl(s);
    var s2 := EscapeAngleBrackets(s1);
    var s3 := CollapseBlanks(s2);
    StripKeepsInk(s);
    EscapeKeepsInk(s1);
    CollapseKeepsInk(s2);
    NewlinesKeepInk(s3);
  }

  /** The visible characters survive sanitizing, in order, with angle brackets
      turned into `_`: only white space and the removed controls change. */
  lemma SanitizeKeepsInk(s: string)
    ensures Filter(Sanitize(s), IsInk) == EscapeAngleBrackets(Filter(s, IsInk))
  {
    ReplacedKeepsInk(s);
    TrimKeepsInk(Replaced(s));
  }

  /** Clean text that is not empty starts with a visible character. */
  lemma CleanStartsWithInk(r: string)
    requires IsClean(r) && r != []
    ensures Filter(r, IsInk) != []
  {
    assert r[0] in r;
    assert IsInk(r[0]);
  }

  /** Sanitizing yields the empty string exactly when the text has nothing
      visible. */
  lemma SanitizeEmptyIff(s: string)
    ensures Sanitize(s) == [] <==> Filter(s, IsInk) == []
  {
    var r := Sanitize(s);
    SanitizeKeepsInk(s);
    if r != [] {
      CleanStartsWithInk(r);
    }
  }

  /** Joining safe text with a separator of safe characters that does not start
      with a space never produces an unsafe character or a double space, provided
      that the separator does not end with a space either, or that every part is
      non-empty and trimmed. */
  lemma {:induction false} JoinSafe(parts: seq<string>, sep: string)
    requires forall i :: 0 <= i < |parts| ==> AllSafe(parts[i]) && NoDoubleSpace(parts[i])
    requires AllSafe(sep) && NoDoubleSpace(sep) && sep != [] && sep[0] != ' '
    requires sep[|sep| - 1] != ' ' || forall i :: 0 <= i < |parts| ==> parts[i] != [] && IsTrimmed(parts[i])
    ensures AllSafe(Join(parts, sep)) && NoDoubleSpace(Join(parts, sep))
  {
    if |parts| > 1 {
      var tail := Join(parts[1..], sep);
      JoinSafe(parts[1..], sep);
      var a := parts[0] + sep;
      NoDoubleSpaceConcat(parts[0], sep);
      JoinHead(parts[1..], sep);
      assert sep[|sep| - 1] == ' ' ==> tail[0] == parts[1][0] && !IsWhitespace(parts[1][0]);
      NoDoubleSpaceConcat(a, tail);
      assert Join(parts, sep) == a + tail;
    }
  }

  /** A join whose first and last parts are non-empty and trimmed is trimmed. */
  lemma JoinTrimmed(parts: seq<string>, sep: string)
    requires |parts| >= 1 && parts[0] != [] && parts[|parts| - 1] != []
    requires IsTrimmed(parts[0]) && IsTrimmed(parts[|parts| - 1])
    ensures IsTrimmed(Join(parts, sep))
  {
    var j := Join(parts, sep);
    JoinHead(parts, sep);
    assert j[0] == parts[0][0];
    if |parts| > 1 {
      var n := |parts| - 1;
      JoinSnoc(parts[..n], parts[n], sep);
      assert parts[..n] + [parts[n]] == parts;
      assert j[|j| - 1] == parts[n][|parts[n]| - 1];
    }
  }
}
