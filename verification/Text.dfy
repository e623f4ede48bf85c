/** Text as the components see it: characters, trimming, and lines kept with their breaks.
    Positions are character positions. */
module Text {
  /** Unicode White_Space. */
  predicate IsWhitespace(c: char) {
    var n := c as int;
    9 <= n <= 13 || n == 32 || n == 0x85 || n == 0xA0 || n == 0x1680 || 0x2000 <= n <= 0x200A
    || n == 0x2028 || n == 0x2029 || n == 0x202F || n == 0x205F || n == 0x3000
  }

  predicate IsBreak(c: char) { c == '\r' || c == '\n' }

  function TrimStart(drop: char -> bool, s: string): string {
    if s != "" && drop(s[0]) then TrimStart(drop, s[1..]) else s
  }

  function TrimEnd(drop: char -> bool, s: string): string {
    if s != "" && drop(s[|s| - 1]) then TrimEnd(drop, s[..|s| - 1]) else s
  }

  function Trim(drop: char -> bool, s: string): string {
    TrimEnd(drop, TrimStart(drop, s))
  }

  /** Neither end is a dropped character. */
  predicate Trimmed(drop: char -> bool, s: string) {
    s != "" ==> !drop(s[0]) && !drop(s[|s| - 1])
  }

  ghost predicate AllOf(drop: char -> bool, s: string) {
    forall i :: 0 <= i < |s| ==> drop(s[i])
  }

  lemma {:induction false} TrimStartIs(drop: char -> bool, s: string)
    ensures var t := TrimStart(drop, s);
            && |t| <= |s| && s[|s| - |t|..] == t && AllOf(drop, s[..|s| - |t|])
            && (t != "" ==> !drop(t[0]))
  {
    if s != "" && drop(s[0]) {
      TrimStartIs(drop, s[1..]);
      var t := TrimStart(drop, s[1..]);
      assert s[..|s| - |t|] == [s[0]] + s[1..][..|s| - 1 - |t|];
    }
  }

  lemma {:induction false} TrimEndIs(drop: char -> bool, s: string)
    ensures var t := TrimEnd(drop, s);
            && |t| <= |s| && s[..|t|] == t && AllOf(drop, s[|t|..])
            && (t != "" ==> !drop(t[|t| - 1]))
  {
    if s != "" && drop(s[|s| - 1]) {
      var n := |s| - 1;
      TrimEndIs(drop, s[..n]);
      var t := TrimEnd(drop, s[..n]);
      assert s[|t|..] == s[..n][|t|..] + [s[n]];
    }
  }

  /** A trim keeps one stretch of the text, drops only droppable characters around it, and
      what is left has none at its ends. */
  lemma TrimIs(drop: char -> bool, s: string)
    ensures var t := Trim(drop, s); var k := |s| - |TrimStart(drop, s)|;
            && 0 <= k && k + |t| <= |s| && s[k..k + |t|] == t && Trimmed(drop, t)
            && AllOf(drop, s[..k]) && AllOf(drop, s[k + |t|..])
  {
    var u := TrimStart(drop, s);
    TrimStartIs(drop, s);
    TrimEndIs(drop, u);
    var k, t := |s| - |u|, Trim(drop, s);
    assert s[k + |t|..] == u[|t|..];
  }

  lemma {:induction false} TrimStartOf(drop: char -> bool, a: string, s: string)
    requires AllOf(drop, a)
    ensures TrimStart(drop, a + s) == TrimStart(drop, s)
  {
    if a == "" {
      assert a + s == s;
    } else {
      assert (a + s)[1..] == a[1..] + s;
      TrimStartOf(drop, a[1..], s);
    }
  }

  lemma {:induction false} TrimEndOf(drop: char -> bool, s: string, b: string)
    requires AllOf(drop, b)
    ensures TrimEnd(drop, s + b) == TrimEnd(drop, s)
  {
    if b == "" {
      assert s + b == s;
    } else {
      assert (s + b)[..|s + b| - 1] == s + b[..|b| - 1];
      TrimEndOf(drop, s, b[..|b| - 1]);
    }
  }

  /** Trimming recovers a trimmed text from droppable surroundings. */
  lemma TrimUnique(drop: char -> bool, a: string, s: string, b: string)
    requires AllOf(drop, a) && AllOf(drop, b) && Trimmed(drop, s)
    ensures Trim(drop, a + s + b) == s
    ensures TrimStart(drop, a + s + b) == if s == "" then "" else s + b
  {
    assert a + s + b == a + (s + b);
    TrimStartOf(drop, a, s + b);
    if s == "" {
      assert s + b == b && b + "" == b;
      TrimStartOf(drop, b, "");
    } else {
      TrimEndOf(drop, s, b);
    }
  }

  function LowerAscii(s: string): string {
    seq(|s|, i requires 0 <= i < |s| => if 'A' <= s[i] <= 'Z' then s[i] + 32 as char else s[i])
  }

  lemma Assoc(a: string, b: string, c: string)
    ensures a + (b + c) == a + b + c && a + "" == a && "" + c == c
  {
  }

  lemma SliceOfSlice(s: string, a: nat, b: nat, i: nat, j: nat)
    requires a <= b <= |s| && i <= j <= b - a
    ensures s[a..b][i..j] == s[a + i..a + j]
  {
    assert |s[a..b][i..j]| == |s[a + i..a + j]|;
    assert forall q :: 0 <= q < j - i ==> s[a..b][i..j][q] == s[a + i..a + j][q];
  }

  // ----- lines -----

  /** Where the line that contains position `i` ends, its line feed included. */
  function LineEnd(s: string, i: nat): (e: nat)
    requires i < |s|
    ensures i < e <= |s|
    decreases |s| - i
  {
    if s[i] == '\n' || i + 1 == |s| then i + 1 else LineEnd(s, i + 1)
  }

  predicate LineStart(s: string, i: nat) {
    i < |s| && (i == 0 || s[i - 1] == '\n')
  }

  /** A line without its break: one `\n`, then one `\r`. */
  function Line(segment: string): string {
    var s := if segment != "" && segment[|segment| - 1] == '\n' then segment[..|segment| - 1] else segment;
    if s != "" && s[|s| - 1] == '\r' then s[..|s| - 1] else s
  }

  function LineAt(s: string, i: nat): string
    requires i < |s|
  {
    Line(s[i..LineEnd(s, i)])
  }

  ghost predicate HasLine(s: string, line: string) {
    exists i: nat :: LineStart(s, i) && LineAt(s, i) == line
  }

  /** A cut after this text falls between lines. */
  ghost predicate WholeLines(s: string) {
    s == "" || s[|s| - 1] == '\n'
  }

  predicate LineEnding(s: string) { s == "\n" || s == "\r\n" }

  /** The end is the first line feed at or after `i`, or the end of the text. */
  lemma {:induction false} LineEndIs(s: string, i: nat, e: nat)
    requires i < |s|
    ensures e == LineEnd(s, i)
            <==> i < e <= |s| && (forall k :: i <= k < e - 1 ==> s[k] != '\n') && (s[e - 1] == '\n' || e == |s|)
    decreases |s| - i
  {
    if s[i] != '\n' && i + 1 < |s| { LineEndIs(s, i + 1, e); }
  }

  /** Lines of the first part are lines of the whole when the cut falls between lines, or
      when the line ends before the cut. */
  lemma LineInFirst(a: string, b: string, i: nat)
    requires i < |a| && (WholeLines(a) || LineEnd(a, i) < |a| || b == "")
    ensures LineEnd(a + b, i) == LineEnd(a, i) && LineAt(a + b, i) == LineAt(a, i)
  {
    var e := LineEnd(a, i);
    LineEndIs(a, i, e);
    LineEndIs(a + b, i, e);
    assert (a + b)[i..e] == a[i..e];
  }

  lemma LineInSecond(a: string, b: string, i: nat)
    requires i < |b|
    ensures LineEnd(a + b, |a| + i) == |a| + LineEnd(b, i) && LineAt(a + b, |a| + i) == LineAt(b, i)
  {
    var e := LineEnd(b, i);
    LineEndIs(b, i, e);
    LineEndIs(a + b, |a| + i, |a| + e);
    assert (a + b)[|a| + i..|a| + e] == b[i..e];
  }

  lemma LineStartAppend(a: string, b: string, i: nat)
    requires WholeLines(a)
    ensures LineStart(a + b, i) <==> if i < |a| then LineStart(a, i) else LineStart(b, i - |a|)
  {
  }

  lemma LineOfFirst(a: string, b: string, i: nat)
    requires WholeLines(a) && LineStart(a + b, i) && i < |a|
    ensures HasLine(a, LineAt(a + b, i))
  {
    LineStartAppend(a, b, i);
    LineInFirst(a, b, i);
    LineIsThere(a, i);
  }

  lemma LineOfSecond(a: string, b: string, i: nat)
    requires WholeLines(a) && LineStart(a + b, i) && i >= |a|
    ensures HasLine(b, LineAt(a + b, i))
  {
    var j := i - |a|;
    LineStartAppend(a, b, i);
    LineInSecond(a, b, j);
    LineIsThere(b, j);
  }

  lemma LineIsThere(s: string, i: nat)
    requires LineStart(s, i)
    ensures HasLine(s, LineAt(s, i))
  {
  }

  /** A line of a concatenation lies in one of its parts. */
  lemma HasLineSplit(a: string, b: string, line: string)
    requires WholeLines(a) && HasLine(a + b, line)
    ensures HasLine(a, line) || HasLine(b, line)
  {
    var ab := a + b;
    var i: nat :| LineStart(ab, i) && LineAt(ab, i) == line;
    if i < |a| { LineOfFirst(a, b, i); } else { LineOfSecond(a, b, i); }
  }

  lemma HasLineFirst(a: string, b: string, line: string)
    requires WholeLines(a) && HasLine(a, line)
    ensures HasLine(a + b, line)
  {
    var i: nat :| LineStart(a, i) && LineAt(a, i) == line;
    LineStartAppend(a, b, i);
    LineInFirst(a, b, i);
  }

  lemma HasLineSecond(a: string, b: string, line: string)
    requires WholeLines(a) && HasLine(b, line)
    ensures HasLine(a + b, line)
  {
    var i: nat :| LineStart(b, i) && LineAt(b, i) == line;
    LineStartAppend(a, b, |a| + i);
    LineInSecond(a, b, i);
  }

  /** Cutting between lines splits the lines. */
  lemma HasLineAppend(a: string, b: string, line: string)
    requires WholeLines(a)
    ensures HasLine(a + b, line) <==> HasLine(a, line) || HasLine(b, line)
  {
    if HasLine(a + b, line) { HasLineSplit(a, b, line); }
    if HasLine(a, line) { HasLineFirst(a, b, line); }
    if HasLine(b, line) { HasLineSecond(a, b, line); }
  }

  lemma LineOfTerminated(s: string, ending: string)
    requires LineEnding(ending) && (s != "" ==> s[|s| - 1] != '\r')
    ensures Line(s + ending) == s
  {
    if ending == "\n" {
      assert (s + ending)[..|s + ending| - 1] == s;
    } else {
      assert (s + ending)[..|s + ending| - 1] == s + "\r";
      assert (s + "\r")[..|s|] == s;
    }
  }

  /** Terminating a last line that ends in neither break character changes no line. */
  lemma TerminatedLine(s: string, ending: string, i: nat)
    requires LineEnding(ending) && s != "" && !IsBreak(s[|s| - 1]) && i < |s|
    ensures LineAt(s + ending, i) == LineAt(s, i)
  {
    var e := LineEnd(s, i);
    LineEndIs(s, i, e);
    if e < |s| {
      LineInFirst(s, ending, i);
    } else {
      LastLineTerminated(s, ending, i);
    }
  }

  lemma LastLineTerminated(s: string, ending: string, i: nat)
    requires LineEnding(ending) && i < |s| && LineEnd(s, i) == |s| && !IsBreak(s[|s| - 1])
    ensures LineAt(s + ending, i) == LineAt(s, i)
  {
    var t, last := s + ending, s[i..];
    LineEndIs(s, i, |s|);
    assert forall k :: i <= k < |s| ==> s[k] != '\n';
    NoEarlyFeed(s, ending, i);
    LineEndIs(t, i, |t|);
    assert t[i..|t|] == last + ending && s[i..|s|] == last;
    assert last[|last| - 1] == s[|s| - 1];
    LineOfTerminated(last, ending);
  }

  lemma NoEarlyFeed(s: string, ending: string, i: nat)
    requires LineEnding(ending) && i < |s| && forall k :: i <= k < |s| ==> s[k] != '\n'
    ensures forall k :: i <= k < |s + ending| - 1 ==> (s + ending)[k] != '\n'
    ensures (s + ending)[|s + ending| - 1] == '\n'
  {
  }

  lemma TerminateKeepsLines(s: string, ending: string, line: string)
    requires LineEnding(ending) && (s != "" ==> !IsBreak(s[|s| - 1]))
    ensures HasLine(s + ending, line) <==> HasLine(s, line) || (s == "" && line == "")
  {
    var t := s + ending;
    if s == "" {
      assert t == ending;
      LineEndIs(t, 0, |t|);
      assert t[0..|t|] == t && "" + ending == ending;
      LineOfTerminated("", ending);
      assert LineStart(t, 0);
    } else {
      assert forall i: nat :: LineStart(t, i) <==> LineStart(s, i) by {
        if ending == "\r\n" { assert t[|s|] == '\r'; }
      }
      forall i: nat | i < |s|
        ensures LineAt(t, i) == LineAt(s, i)
      {
        TerminatedLine(s, ending, i);
      }
      if HasLine(t, line) {
        var i :| LineStart(t, i) && LineAt(t, i) == line;
        assert LineStart(s, i);
      }
      if HasLine(s, line) {
        var i :| LineStart(s, i) && LineAt(s, i) == line;
        assert LineStart(t, i);
      }
    }
  }
}
