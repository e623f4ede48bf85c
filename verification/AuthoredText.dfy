/** Whether a compose section holds authored text: HTML comments, which may span lines, do
    not count. The source scans line by line and carries "inside a comment" from one line to
    the next; the specification looks at the whole text. */
module AuthoredText {
  import opened Wrappers
  import opened Text

  const OPEN := "<!--"
  const CLOSE := "-->"

  datatype Scan = Scan(visible: string, inComment: bool)

  /** The whole-text specification: outside a comment text is visible up to the next `<!--`,
      inside one nothing is visible up to the next `-->`; an unterminated comment runs to the
      end. */
  function Strip(s: string, inComment: bool): Scan {
    if s == "" then Scan("", inComment)
    else if inComment then
      if CLOSE <= s then Strip(s[3..], false) else Strip(s[1..], true)
    else if OPEN <= s then Strip(s[4..], true)
    else var rest := Strip(s[1..], false); Scan([s[0]] + rest.visible, rest.inComment)
  }

  ghost predicate HasVisible(s: string) {
    exists i :: 0 <= i < |s| && !IsWhitespace(s[i])
  }

  /** The first position of `pattern`, as the library's search reports it. */
  function Find(s: string, pattern: string): (r: Option<nat>)
    ensures r.Some? ==> r.value + |pattern| <= |s|
  {
    if pattern <= s then Some(0)
    else if s == "" then None
    else match Find(s[1..], pattern)
      case None => None
      case Some(n) => Some(n + 1)
  }

  lemma {:induction false} StripToClose(s: string)
    ensures match Find(s, CLOSE)
            case None => Strip(s, true) == Scan("", true)
            case Some(n) => Strip(s, true) == Strip(s[n + 3..], false)
  {
    if s != "" && !(CLOSE <= s) {
      StripToClose(s[1..]);
      var f := Find(s[1..], CLOSE);
      if f.Some? { assert s[1..][f.value + 3..] == s[f.value + 4..]; }
    }
  }

  lemma {:induction false} StripToOpen(s: string)
    ensures match Find(s, OPEN)
            case None => Strip(s, false) == Scan(s, false)
            case Some(n) =>
              var rest := Strip(s[n + 4..], true);
              Strip(s, false) == Scan(s[..n] + rest.visible, rest.inComment)
  {
    if s != "" && !(OPEN <= s) {
      StripToOpen(s[1..]);
      VisibleStep(s);
      var f := Find(s[1..], OPEN);
      if f.Some? {
        Shifted(s, f.value, Strip(s[f.value + 5..], true).visible);
      } else {
        assert [s[0]] + s[1..] == s;
      }
    }
  }

  lemma VisibleStep(s: string)
    requires s != "" && !(OPEN <= s)
    ensures var rest := Strip(s[1..], false); Strip(s, false) == Scan([s[0]] + rest.visible, rest.inComment)
    ensures Find(s, OPEN) == match Find(s[1..], OPEN)
              case None => None
              case Some(n) => Some(n + 1)
  {
  }

  lemma Shifted(s: string, n: nat, rest: string)
    requires n + 5 <= |s|
    ensures s[1..][n + 4..] == s[n + 5..] && [s[0]] + (s[1..][..n] + rest) == s[..n + 1] + rest
  {
    assert [s[0]] + s[1..][..n] == s[..n + 1];
    Assoc([s[0]], s[1..][..n], rest);
  }

  lemma AfterOpen(visible: string, s: string)
    ensures match Find(s, OPEN)
            case None => Strip(s, false) == Scan(s, false)
            case Some(n) =>
              var rest := Strip(s[n + 4..], true);
              && visible + Strip(s, false).visible == visible + s[..n] + rest.visible
              && Strip(s, false).inComment == rest.inComment
  {
    StripToOpen(s);
    match Find(s, OPEN)
    case None =>
    case Some(n) => Assoc(visible, s[..n], Strip(s[n + 4..], true).visible);
  }

  method StripHtmlComments(line: string, inComment: bool) returns (r: Scan)
    ensures r == Strip(line, inComment)
  {
    var visible, remaining, inside := "", line, inComment;
    Assoc("", "", Strip(line, inComment).visible);
    while true
      invariant Strip(line, inComment).visible == visible + Strip(remaining, inside).visible
      invariant Strip(line, inComment).inComment == Strip(remaining, inside).inComment
      decreases |remaining|
    {
      if inside {
        StripToClose(remaining);
        var end := Find(remaining, CLOSE);
        if end.None? {
          Assoc(visible, "", "");
          return Scan(visible, true);
        }
        remaining := remaining[end.value + 3..];
        inside := false;
      } else {
        var start := Find(remaining, OPEN);
        AfterOpen(visible, remaining);
        if start.None? {
          return Scan(visible + remaining, false);
        }
        visible := visible + remaining[..start.value];
        remaining := remaining[start.value + 4..];
        inside := true;
      }
    }
  }

  // ----- what a comment is -----

  /** The pattern occurs nowhere. */
  ghost predicate Without(s: string, pattern: string) {
    forall i :: 0 <= i <= |s| ==> !(pattern <= s[i..])
  }

  lemma WithoutRest(s: string, pattern: string)
    requires Without(s, pattern) && s != "" && pattern != ""
    ensures Without(s[1..], pattern) && !(pattern <= s)
  {
    forall i | 0 <= i <= |s[1..]|
      ensures !(pattern <= s[1..][i..])
    {
      assert s[1..][i..] == s[i + 1..];
    }
    assert s[0..] == s;
  }

  lemma {:induction false} FindNothing(s: string, pattern: string)
    requires Without(s, pattern) && pattern != ""
    ensures Find(s, pattern) == None
  {
    if s != "" {
      WithoutRest(s, pattern);
      FindNothing(s[1..], pattern);
    }
  }

  /** A delimiter does not begin inside a text without it and end behind. */
  lemma NoOverlap(s: string, pattern: string, rest: string)
    requires pattern == OPEN || pattern == CLOSE
    requires s != "" && !(pattern <= s)
    ensures !(pattern <= s + (pattern + rest))
  {
    var all := s + (pattern + rest);
    if |s| >= |pattern| {
      assert all[..|pattern|] == s[..|pattern|];
    } else {
      assert forall i :: 0 <= i < |pattern| - |s| ==> all[|s| + i] == pattern[i];
      assert pattern == OPEN ==> all[|s|] == '<' && pattern[|s|] != '<';
      assert pattern == CLOSE ==> all[2] == '-';
    }
  }

  lemma {:induction false} FindBehind(s: string, pattern: string, rest: string)
    requires (pattern == OPEN || pattern == CLOSE) && Without(s, pattern)
    ensures Find(s + (pattern + rest), pattern) == Some(|s|)
    decreases |s|
  {
    var all := s + (pattern + rest);
    if s == "" {
      assert all == pattern + rest;
    } else {
      WithoutRest(s, pattern);
      NoOverlap(s, pattern, rest);
      assert all[1..] == s[1..] + (pattern + rest);
      FindBehind(s[1..], pattern, rest);
    }
  }

  lemma CommentOpens(a: string, rest: string)
    requires Without(a, OPEN)
    ensures var inside := Strip(rest, true); Strip(a + (OPEN + rest), false) == Scan(a + inside.visible, inside.inComment)
  {
    var s := a + (OPEN + rest);
    FindBehind(a, OPEN, rest);
    StripToOpen(s);
    assert s[..|a|] == a && s[|a| + 4..] == rest;
  }

  lemma CommentCloses(c: string, rest: string)
    requires Without(c, CLOSE)
    ensures Strip(c + (CLOSE + rest), true) == Strip(rest, false) && Strip(c, true) == Scan("", true)
  {
    var s := c + (CLOSE + rest);
    FindBehind(c, CLOSE, rest);
    StripToClose(s);
    assert s[|c| + 3..] == rest;
    FindNothing(c, CLOSE);
    StripToClose(c);
  }

  /** Text in front of a comment is visible, the comment is not, and the text behind it is
      scanned on; a comment that is not closed hides the rest. */
  lemma CommentIsInvisible(a: string, c: string, b: string)
    requires Without(a, "<!--") && Without(c, "-->")
    ensures Strip(a, false) == Scan(a, false)
    ensures Strip(a + ("<!--" + c), false) == Scan(a, true)
    ensures var rest := Strip(b, false);
            Strip(a + ("<!--" + (c + ("-->" + b))), false) == Scan(a + rest.visible, rest.inComment)
  {
    FindNothing(a, OPEN);
    StripToOpen(a);
    CommentOpens(a, c);
    Assoc(a, "", "");
    CommentOpens(a, c + ("-->" + b));
    CommentCloses(c, b);
  }

  // ----- scanning line by line -----

  /** A line without its break, as `str::lines` yields it: a final `\n` or `\r\n` is dropped. */
  function LineText(segment: string): string {
    if segment != "" && segment[|segment| - 1] == '\n' then
      if |segment| > 1 && segment[|segment| - 2] == '\r' then segment[..|segment| - 2] else segment[..|segment| - 1]
    else segment
  }

  lemma Tokens(s: string, tail: string)
    requires s != "" && (tail == "" || IsBreak(tail[0]))
    ensures OPEN <= s + tail <==> OPEN <= s
    ensures CLOSE <= s + tail <==> CLOSE <= s
  {
    if tail == "" {
      Assoc(s, "", "");
    } else {
      assert (s + tail)[|s|] == tail[0];
      assert |s| < 4 ==> !IsBreak(OPEN[|s|]);
      assert |s| < 3 ==> !IsBreak(CLOSE[|s|]);
    }
  }

  /** No token spans a line break: the scan of a line followed by a break is the scan of the
      line and then of the rest. */
  lemma {:induction false} StripSplits(s: string, tail: string, inComment: bool)
    requires tail == "" || IsBreak(tail[0])
    ensures var first := Strip(s, inComment); var rest := Strip(tail, first.inComment);
            Strip(s + tail, inComment) == Scan(first.visible + rest.visible, rest.inComment)
    decreases |s|
  {
    if s == "" {
      Assoc("", "", tail);
      Assoc("", "", Strip(tail, inComment).visible);
    } else {
      Tokens(s, tail);
      var n := if inComment then (if CLOSE <= s then 3 else 1) else (if OPEN <= s then 4 else 1);
      var next := if inComment then !(CLOSE <= s) else OPEN <= s;
      assert (s + tail)[n..] == s[n..] + tail;
      StripSplits(s[n..], tail, next);
      if !inComment && !(OPEN <= s) {
        var a, b := Strip(s[1..], false), Strip(tail, Strip(s[1..], false).inComment);
        Assoc([s[0]], a.visible, b.visible);
      }
    }
  }

  lemma {:induction false} StripBreak(ending: string, rest: string, inComment: bool)
    requires ending == "" || LineEnding(ending)
    ensures Strip(ending + rest, inComment).inComment == Strip(rest, inComment).inComment
    ensures HasVisible(Strip(ending + rest, inComment).visible) <==> HasVisible(Strip(rest, inComment).visible)
  {
    if ending == "" {
      Assoc("", "", rest);
    } else {
      var all := ending + rest;
      assert all[1..] == ending[1..] + rest && all[0] == ending[0];
      assert !(OPEN <= all) && !(CLOSE <= all);
      BlankFirst(ending[0], Strip(ending[1..] + rest, inComment).visible);
      StripBreak(ending[1..], rest, inComment);
    }
  }

  lemma BlankFirst(c: char, s: string)
    requires IsWhitespace(c)
    ensures HasVisible([c] + s) <==> HasVisible(s)
  {
    if HasVisible(s) {
      var i :| 0 <= i < |s| && !IsWhitespace(s[i]);
      assert ([c] + s)[i + 1] == s[i];
    }
  }

  lemma VisibleAppend(a: string, b: string)
    ensures HasVisible(a + b) <==> HasVisible(a) || HasVisible(b)
  {
    if HasVisible(a) {
      var i :| 0 <= i < |a| && !IsWhitespace(a[i]);
      assert (a + b)[i] == a[i];
    }
    if HasVisible(b) {
      var i :| 0 <= i < |b| && !IsWhitespace(b[i]);
      assert (a + b)[|a| + i] == b[i];
    }
  }

  lemma SegmentIs(segment: string) returns (ending: string)
    ensures segment == LineText(segment) + ending && (ending == "" || LineEnding(ending))
    ensures segment != "" && segment[|segment| - 1] == '\n' ==> ending != ""
  {
    ending := segment[|LineText(segment)|..];
  }

  /** One line of the scan: what it shows and what it leaves for the rest. */
  lemma ScanLine(s: string, n: nat, inComment: bool)
    requires 1 <= n <= |s| && (n < |s| ==> s[n - 1] == '\n')
    ensures var first := Strip(LineText(s[..n]), inComment);
            HasVisible(Strip(s, inComment).visible)
            <==> HasVisible(first.visible) || HasVisible(Strip(s[n..], first.inComment).visible)
    ensures var first := Strip(LineText(s[..n]), inComment);
            Strip(s, inComment).inComment == Strip(s[n..], first.inComment).inComment
  {
    var line := LineText(s[..n]);
    var ending := SegmentIs(s[..n]);
    CutAtBreak(s, n, line, ending);
    StripLine(line, ending, s[n..], inComment);
  }

  lemma CutAtBreak(s: string, n: nat, line: string, ending: string)
    requires 1 <= n <= |s| && s[..n] == line + ending && (ending == "" ==> n == |s|)
    ensures s == line + (ending + s[n..]) && (ending == "" ==> s[n..] == "")
  {
    assert s == s[..n] + s[n..];
    Assoc(line, ending, s[n..]);
  }

  lemma StripLine(line: string, ending: string, rest: string, inComment: bool)
    requires (ending == "" && rest == "") || LineEnding(ending)
    ensures var first := Strip(line, inComment); var all := Strip(line + (ending + rest), inComment);
            && (HasVisible(all.visible) <==> HasVisible(first.visible) || HasVisible(Strip(rest, first.inComment).visible))
            && all.inComment == Strip(rest, first.inComment).inComment
  {
    var first := Strip(line, inComment);
    if ending != "" { assert (ending + rest)[0] == ending[0]; }
    StripSplits(line, ending + rest, inComment);
    StripBreak(ending, rest, first.inComment);
    VisibleAppend(first.visible, Strip(ending + rest, first.inComment).visible);
  }

  lemma TrimFindsVisible(s: string)
    ensures Trim(IsWhitespace, s) != "" <==> HasVisible(s)
  {
    var t, k := Trim(IsWhitespace, s), |s| - |TrimStart(IsWhitespace, s)|;
    TrimIs(IsWhitespace, s);
    if t != "" {
      assert s[k] == t[0];
    }
  }

  lemma ScanStep(s: string, i: nat, inComment: bool)
    requires i < |s|
    ensures var e := LineEnd(s, i); var scan := Strip(LineText(s[i..e]), inComment);
            HasVisible(Strip(s[i..], inComment).visible)
            <==> HasVisible(scan.visible) || HasVisible(Strip(s[e..], scan.inComment).visible)
  {
    var e := LineEnd(s, i);
    LineAhead(s, i, e);
    ScanLine(s[i..], e - i, inComment);
  }

  lemma LineAhead(s: string, i: nat, e: nat)
    requires i < |s| && e == LineEnd(s, i)
    ensures var rest := s[i..];
            rest[..e - i] == s[i..e] && rest[e - i..] == s[e..] && (e - i < |rest| ==> rest[e - i - 1] == '\n')
  {
    LineEndIs(s, i, e);
    assert s[i..][e - i - 1] == s[e - 1];
  }

  /** `has_authored_text`: the line-by-line scan stops at the first line that shows
      anything, and finds one exactly when the whole text does. */
  method ContainsAuthoredText(compose: string) returns (r: bool)
    ensures r <==> HasVisible(Strip(compose, false).visible)
  {
    var inComment, i := false, 0;
    assert compose[0..] == compose;
    while i < |compose|
      invariant i <= |compose|
      invariant HasVisible(Strip(compose, false).visible) <==> HasVisible(Strip(compose[i..], inComment).visible)
    {
      ScanStep(compose, i, inComment);
      var e := LineEnd(compose, i);
      var scan := StripHtmlComments(LineText(compose[i..e]), inComment);
      TrimFindsVisible(scan.visible);
      if Trim(IsWhitespace, scan.visible) != "" {
        return true;
      }
      inComment := scan.inComment;
      i := e;
    }
    return false;
  }
}
