/** The text that leaves the workspace: everything from the compose section on, without
    marker lines. */
module DraftOutbound {
  import opened Wrappers
  import opened Text
  import opened DraftContent
  import opened DraftLens

  predicate IsRemoved(k: Schema, line: string) {
    line == k.composeEnd || line == k.quoteStart || line == k.quoteEnd
  }

  /** The schema markers that can follow a compose start. */
  function Removes(k: Schema): string -> bool { line => IsRemoved(k, line) }

  /** What remains of the line at `i`: all of it, or nothing of a dropped line. */
  function Piece(drop: string -> bool, s: string, i: nat): string
    requires i < |s|
  {
    if drop(LineAt(s, i)) then "" else s[i..LineEnd(s, i)]
  }

  /** The lines of `s` from position `i` on that are not dropped. */
  function KeptFrom(drop: string -> bool, s: string, i: nat): string
    requires i <= |s|
    decreases |s| - i
  {
    if i == |s| then "" else
      Piece(drop, s, i) + KeptFrom(drop, s, LineEnd(s, i))
  }

  method RemoveSchemaMarkerLines(k: Schema, input: string) returns (output: string)
    ensures output == KeptFrom(Removes(k), input, 0)
  {
    output := "";
    ghost var drop := Removes(k);
    var i := 0;
    while i < |input|
      invariant i <= |input|
      invariant output + KeptFrom(drop, input, i) == KeptFrom(drop, input, 0)
    {
      var e := LineEnd(input, i);
      ghost var before := output;
      if !IsRemoved(k, Line(input[i..e])) {
        output := output + input[i..e];
      }
      Assoc(before, Piece(drop, input, i), KeptFrom(drop, input, e));
      i := e;
    }
  }

  /** The lines from the compose section on that are not schema markers. */
  ghost function Kept(k: Schema, d: Draft): string
    requires Parsed(k, d)
  {
    KeptFrom(Removes(k), Compose(k, d) + After(k, d), 0)
  }

  ghost function Outbound(k: Schema, body: string): Result<string, Error> {
    match ParseDraft(k, body)
    case Err(e) => Err(e)
    case Ok(d) => Ok(Trim(IsBreak, Kept(k, d)))
  }

  lemma CutInTwo(s: string, i: nat, j: nat)
    requires i <= j <= |s|
    ensures s[i..] == s[i..j] + s[j..]
  {
  }

  method OutboundBody(k: Schema, body: string) returns (r: Result<string, Error>)
    ensures r == Outbound(k, body)
  {
    var parsed := ParseDraftContent(k, body);
    if parsed.Err? { return Err(parsed.error); }
    var d := parsed.value;
    Inside(k, d);
    CutInTwo(body, d.composeStart.afterLine, d.composeEnd.lineStart);
    var withoutMarkers := RemoveSchemaMarkerLines(k, body[d.composeStart.afterLine..]);
    return Ok(Trim(IsBreak, withoutMarkers));
  }

  // ----- removal line by line -----

  lemma KeptStep(drop: string -> bool, s: string, i: nat)
    requires i < |s|
    ensures var e := LineEnd(s, i);
            && (drop(LineAt(s, i)) ==> KeptFrom(drop, s, i) == KeptFrom(drop, s, e))
            && (!drop(LineAt(s, i)) ==> KeptFrom(drop, s, i) == s[i..e] + KeptFrom(drop, s, e))
            && (e == |s| ==> KeptFrom(drop, s, e) == "")
  {
    Assoc("", KeptFrom(drop, s, LineEnd(s, i)), "");
  }

  /** The first line depends only on the text from its start on. */
  lemma PieceOfSuffix(drop: string -> bool, s: string, i: nat, t: string, j: nat)
    requires i < |s| && j < |t| && s[i..] == t[j..]
    ensures LineEnd(s, i) - i == LineEnd(t, j) - j && Piece(drop, s, i) == Piece(drop, t, j)
    ensures s[LineEnd(s, i)..] == t[LineEnd(t, j)..]
  {
    LineEndOfSuffix(s, i, t, j);
    SlicesOfSuffix(s, i, LineEnd(s, i), t, j, LineEnd(t, j));
  }

  lemma SlicesOfSuffix(s: string, i: nat, e: nat, t: string, j: nat, f: nat)
    requires i <= e <= |s| && j <= f <= |t| && s[i..] == t[j..] && e - i == f - j
    ensures s[i..e] == t[j..f] && s[e..] == t[f..]
  {
    assert s[i..e] == s[i..][..e - i] && t[j..f] == t[j..][..f - j];
    assert s[e..] == s[i..][e - i..] && t[f..] == t[j..][f - j..];
  }

  lemma LineEndOfSuffix(s: string, i: nat, t: string, j: nat)
    requires i < |s| && j < |t| && s[i..] == t[j..]
    ensures LineEnd(s, i) - i == LineEnd(t, j) - j
  {
    var e := LineEnd(s, i);
    assert |s[i..]| == |t[j..]|;
    assert forall k :: i <= k < |s| ==> s[k] == s[i..][k - i];
    assert forall k :: j <= k < |t| ==> t[k] == t[j..][k - j];
    LineEndIs(s, i, e);
    LineEndIs(t, j, j + e - i);
  }

  lemma {:induction false} KeptOfSuffix(drop: string -> bool, s: string, i: nat, t: string, j: nat)
    requires i <= |s| && j <= |t| && s[i..] == t[j..]
    ensures KeptFrom(drop, s, i) == KeptFrom(drop, t, j)
    decreases |s| - i
  {
    assert |s[i..]| == |t[j..]|;
    if i < |s| {
      PieceOfSuffix(drop, s, i, t, j);
      KeptOfSuffix(drop, s, LineEnd(s, i), t, LineEnd(t, j));
    }
  }

  lemma KeptInSecond(drop: string -> bool, a: string, b: string)
    ensures KeptFrom(drop, a + b, |a|) == KeptFrom(drop, b, 0)
  {
    assert (a + b)[|a|..] == b && b[0..] == b;
    KeptOfSuffix(drop, a + b, |a|, b, 0);
  }

  /** No line is removed. */
  ghost predicate Plain(drop: string -> bool, a: string) {
    forall i :: LineStart(a, i) ==> !drop(LineAt(a, i))
  }

  /** No line of the text is one that is removed. */
  ghost predicate Untouched(k: Schema, s: string) {
    !HasLine(s, k.composeEnd) && !HasLine(s, k.quoteStart) && !HasLine(s, k.quoteEnd)
  }

  lemma UnmarkedIsPlain(k: Schema, a: string)
    requires Untouched(k, a)
    ensures Plain(Removes(k), a)
  {
    forall i | LineStart(a, i)
      ensures !IsRemoved(k, LineAt(a, i))
    {
      LineIsThere(a, i);
    }
  }

  lemma PlainPiece(drop: string -> bool, a: string, b: string, i: nat)
    requires WholeLines(a) && Plain(drop, a) && LineStart(a, i)
    ensures LineEnd(a + b, i) == LineEnd(a, i) && Piece(drop, a + b, i) == a[i..LineEnd(a, i)]
    ensures LineEnd(a, i) < |a| ==> LineStart(a, LineEnd(a, i))
  {
    LineInFirst(a, b, i);
    LineEndIs(a, i, LineEnd(a, i));
    assert (a + b)[i..LineEnd(a, i)] == a[i..LineEnd(a, i)];
  }

  lemma Rejoin(a: string, i: nat, e: nat, c: string)
    requires i <= e <= |a|
    ensures a[i..e] + (a[e..] + c) == a[i..] + c
  {
    assert a[i..] == a[i..e] + a[e..];
    Assoc(a[i..e], a[e..], c);
  }

  /** Lines without markers are all kept. */
  lemma {:induction false} KeptOfPlain(drop: string -> bool, a: string, b: string, i: nat)
    requires WholeLines(a) && Plain(drop, a) && i <= |a| && (i < |a| ==> LineStart(a, i))
    ensures KeptFrom(drop, a + b, i) == a[i..] + KeptFrom(drop, b, 0)
    decreases |a| - i
  {
    if i == |a| {
      KeptInSecond(drop, a, b);
      Assoc("", "", KeptFrom(drop, b, 0));
    } else {
      var e := LineEnd(a, i);
      PlainPiece(drop, a, b, i);
      assert KeptFrom(drop, a + b, i) == a[i..e] + KeptFrom(drop, a + b, e);
      KeptOfPlain(drop, a, b, e);
      Rejoin(a, i, e, KeptFrom(drop, b, 0));
    }
  }

  /** What an outbound body of a replaced draft is: the new text, the line ending and the
      rest of the draft without its marker lines, trimmed of line breaks. */
  lemma OutboundOfReplaced(k: Schema, d: Draft, authored: string)
    requires k.Valid() && Parsed(k, d) && !HasMarkerLine(k, Trim(IsBreak, authored))
    ensures Outbound(k, Replaced(k, d.body, authored).value)
            == Ok(Trim(IsBreak, Trim(IsBreak, authored) + Ending(k, d) + KeptFrom(Removes(k), After(k, d), 0)))
  {
    var text, ending := Trim(IsBreak, authored), Ending(k, d);
    var d' := PutThenGet(k, d, authored);
    ReplacedParts(k, d, authored, d');
    TrimIs(IsBreak, authored);
    TextIsWholeLines(k, text, ending);
    UnmarkedIsPlain(k, text + ending);
    KeptOfPlain(Removes(k), text + ending, After(k, d), 0);
  }

  // ----- no marker leaks -----

  /** Every carriage return is followed by a line feed. */
  ghost predicate CrOnlyBeforeLf(s: string) {
    && (s != "" ==> s[|s| - 1] != '\r')
    && (forall i, j :: 0 <= i < j < |s| && j == i + 1 && s[i] == '\r' ==> s[j] == '\n')
  }

  lemma {:induction false} AllKept(drop: string -> bool, s: string, i: nat)
    requires Plain(drop, s) && i <= |s| && (i < |s| ==> LineStart(s, i))
    ensures KeptFrom(drop, s, i) == s[i..]
    decreases |s| - i
  {
    if i < |s| {
      var e := LineEnd(s, i);
      LineEndIs(s, i, e);
      AllKept(drop, s, e);
      KeptStep(drop, s, i);
      CutInTwo(s, i, e);
    }
  }

  /** A line by itself: the marker, and its ending. */
  ghost predicate MarkerLineIs(line: string, marker: string, ending: string) {
    && line == marker + ending && line != "" && '\n' !in marker && (marker != "" ==> marker[|marker| - 1] != '\r')
    && (ending == "" || LineEnding(ending))
  }

  lemma MarkerLineReads(line: string, marker: string, ending: string)
    requires MarkerLineIs(line, marker, ending)
    ensures Line(line) == marker && forall i :: 0 <= i < |line| - 1 ==> line[i] != '\n'
    ensures ending != "" ==> line[|line| - 1] == '\n'
  {
    if ending == "" { assert line == marker; } else { LineOfTerminated(marker, ending); }
  }

  lemma MarkerPiece(drop: string -> bool, line: string, marker: string, ending: string, rest: string)
    requires drop(marker) && MarkerLineIs(line, marker, ending) && (ending == "" ==> rest == "")
    ensures KeptFrom(drop, line + rest, 0) == KeptFrom(drop, rest, 0)
  {
    var s := line + rest;
    MarkerLineReads(line, marker, ending);
    LineEndIs(s, 0, |line|);
    assert s[0..|line|] == line;
    KeptStep(drop, s, 0);
    KeptInSecond(drop, line, rest);
  }

  /** What the removal does to any text, part by part: text without such lines stays, down to
      the last character, and a line that reads one of the three markers goes with its
      ending. */
  lemma RemovalIs(k: Schema, text: string, line: string, marker: string, ending: string, rest: string)
    requires Untouched(k, text) && marker in {k.composeEnd, k.quoteStart, k.quoteEnd}
    requires MarkerLineIs(line, marker, ending) && (ending == "" ==> rest == "")
    ensures KeptFrom(Removes(k), text, 0) == text
    ensures WholeLines(text) ==> KeptFrom(Removes(k), text + (line + rest), 0) == text + KeptFrom(Removes(k), rest, 0)
  {
    UnmarkedIsPlain(k, text);
    AllKept(Removes(k), text, 0);
    MarkerPiece(Removes(k), line, marker, ending, rest);
    if WholeLines(text) { KeptOfPlain(Removes(k), text, line + rest, 0); }
  }

  lemma SingleLine(s: string, line: string)
    requires s != "" && LineEnd(s, 0) == |s|
    ensures HasLine(s, line) <==> line == Line(s)
  {
    LineEndIs(s, 0, |s|);
    assert s[0..|s|] == s;
    assert LineStart(s, 0) && LineAt(s, 0) == Line(s);
  }

  lemma LineIsItsOwnText(s: string, i: nat, line: string)
    requires i < |s|
    ensures HasLine(s[i..LineEnd(s, i)], line) <==> line == LineAt(s, i)
  {
    var e := LineEnd(s, i);
    var piece := s[i..e];
    LineEndIs(s, i, e);
    LineEndIs(piece, 0, |piece|);
    SingleLine(piece, line);
  }

  /** Removal keeps exactly the other lines, and keeps carriage returns in front of their
      line feeds. */
  lemma {:induction false} KeptLines(drop: string -> bool, s: string, i: nat, line: string)
    requires i <= |s| && (i < |s| ==> LineStart(s, i)) && HasLine(KeptFrom(drop, s, i), line)
    ensures HasLine(s, line) && !drop(line)
    decreases |s| - i
  {
    if i < |s| {
      var e := LineEnd(s, i);
      LineEndIs(s, i, e);
      var later := HeadOrRest(drop, s, i, line);
      if later { KeptLines(drop, s, e, line); }
    }
  }

  lemma LineOfJoined(piece: string, rest: string, line: string)
    requires HasLine(piece + rest, line) && (WholeLines(piece) || rest == "")
    ensures HasLine(piece, line) || HasLine(rest, line)
  {
    if rest == "" {
      Assoc(piece, "", "");
    } else {
      HasLineSplit(piece, rest, line);
    }
  }

  lemma WholePiece(s: string, i: nat)
    requires i < |s|
    ensures WholeLines(s[i..LineEnd(s, i)]) || LineEnd(s, i) == |s|
  {
    var e := LineEnd(s, i);
    LineEndIs(s, i, e);
    assert s[i..e][e - i - 1] == s[e - 1];
  }

  /** A kept line is the first one, or kept from the next line on. */
  lemma HeadOrRest(drop: string -> bool, s: string, i: nat, line: string) returns (later: bool)
    requires i < |s| && LineStart(s, i) && HasLine(KeptFrom(drop, s, i), line)
    ensures later ==> HasLine(KeptFrom(drop, s, LineEnd(s, i)), line)
    ensures !later ==> HasLine(s, line) && !drop(line)
  {
    KeptStep(drop, s, i);
    later := drop(LineAt(s, i)) || line != LineAt(s, i);
    if !drop(LineAt(s, i)) {
      WholePiece(s, i);
      LineOfJoined(s[i..LineEnd(s, i)], KeptFrom(drop, s, LineEnd(s, i)), line);
      LineIsItsOwnText(s, i, line);
      LineIsThere(s, i);
    }
  }

  lemma PieceCr(drop: string -> bool, s: string, i: nat)
    requires i < |s| && CrOnlyBeforeLf(s)
    ensures CrOnlyBeforeLf(Piece(drop, s, i))
  {
    var e := LineEnd(s, i);
    var piece := s[i..e];
    LineEndIs(s, i, e);
    assert piece[|piece| - 1] == s[e - 1];
    forall p, q | 0 <= p < q < |piece| && q == p + 1 && piece[p] == '\r'
      ensures piece[q] == '\n'
    {
      assert piece[p] == s[i + p] && piece[q] == s[i + q];
    }
  }

  lemma {:induction false} KeptCr(drop: string -> bool, s: string, i: nat)
    requires i <= |s| && CrOnlyBeforeLf(s)
    ensures CrOnlyBeforeLf(KeptFrom(drop, s, i))
    decreases |s| - i
  {
    if i < |s| {
      var e := LineEnd(s, i);
      PieceCr(drop, s, i);
      KeptCr(drop, s, e);
      JoinedCr(Piece(drop, s, i), KeptFrom(drop, s, e));
    }
  }

  /** Dropping a leading break drops a whole blank line. */
  lemma {:induction false} TrimStartKeepsLines(s: string, line: string)
    requires CrOnlyBeforeLf(s) && HasLine(TrimStart(IsBreak, s), line)
    ensures HasLine(s, line) && CrOnlyBeforeLf(TrimStart(IsBreak, s))
    decreases |s|
  {
    if s != "" && IsBreak(s[0]) {
      var n := if s[0] == '\n' then 1 else 2;
      assert s == s[..n] + s[n..];
      if n == 2 { assert TrimStart(IsBreak, s) == TrimStart(IsBreak, s[1..]) && s[1..][1..] == s[2..]; }
      TrimStartKeepsLines(s[n..], line);
      HasLineAppend(s[..n], s[n..], line);
    }
  }

  /** The breaks dropped from an end start with one line ending. */
  lemma EndingAfterTrim(s: string) returns (ending: string, more: string)
    requires CrOnlyBeforeLf(s) && TrimEnd(IsBreak, s) != s
    ensures LineEnding(ending) && s == TrimEnd(IsBreak, s) + ending + more
  {
    var t := TrimEnd(IsBreak, s);
    TrimEndIs(IsBreak, s);
    SuffixCr(s, |t|);
    ending, more := EndingAt(s, |t|);
    Assoc(t, ending, more);
  }

  lemma EndingAt(s: string, n: nat) returns (ending: string, more: string)
    requires n < |s| && AllOf(IsBreak, s[n..]) && CrOnlyBeforeLf(s[n..])
    ensures LineEnding(ending) && s == s[..n] + (ending + more)
  {
    var dropped := s[n..];
    assert IsBreak(dropped[0]) && s == s[..n] + dropped;
    ending, more := FirstEnding(dropped);
  }

  lemma FirstEnding(s: string) returns (ending: string, more: string)
    requires s != "" && IsBreak(s[0]) && CrOnlyBeforeLf(s)
    ensures LineEnding(ending) && s == ending + more
  {
    if s[0] == '\n' {
      ending, more := "\n", s[1..];
    } else {
      assert |s| > 1 && s[1] == '\n';
      ending, more := "\r\n", s[2..];
    }
  }

  lemma TrimEndKeepsLines(s: string, line: string)
    requires CrOnlyBeforeLf(s) && HasLine(TrimEnd(IsBreak, s), line)
    ensures HasLine(s, line)
  {
    var t := TrimEnd(IsBreak, s);
    TrimEndIs(IsBreak, s);
    if t != s {
      var ending, more := EndingAfterTrim(s);
      TerminateKeepsLines(t, ending, line);
      HasLineAppend(t + ending, more, line);
    }
  }

  lemma TrimKeepsLines(s: string, line: string)
    requires CrOnlyBeforeLf(s) && HasLine(Trim(IsBreak, s), line)
    ensures HasLine(s, line)
  {
    var u := TrimStart(IsBreak, s);
    TrimStartIs(IsBreak, s);
    assert CrOnlyBeforeLf(u) by {
      forall i | 0 <= i < |u| && u[i] == '\r'
        ensures i + 1 < |u| && u[i + 1] == '\n'
      {
        assert u[i] == s[|s| - |u| + i];
      }
    }
    TrimEndKeepsLines(u, line);
    TrimStartKeepsLines(s, line);
  }

  lemma TrimmedCr(s: string)
    requires CrOnlyBeforeLf(s)
    ensures CrOnlyBeforeLf(Trim(IsBreak, s))
  {
    var t, k := Trim(IsBreak, s), |s| - |TrimStart(IsBreak, s)|;
    TrimIs(IsBreak, s);
    forall i | 0 <= i < |t| && t[i] == '\r'
      ensures i + 1 < |t| && t[i + 1] == '\n'
    {
      assert t[i] == s[k + i];
      assert i != |t| - 1;
    }
  }

  lemma JoinedCr(a: string, b: string)
    requires CrOnlyBeforeLf(a) && CrOnlyBeforeLf(b)
    ensures CrOnlyBeforeLf(a + b)
  {
  }

  lemma SuffixCr(s: string, i: nat)
    requires i <= |s| && CrOnlyBeforeLf(s)
    ensures CrOnlyBeforeLf(s[i..])
  {
    var t := s[i..];
    forall p, q | 0 <= p < q < |t| && q == p + 1 && t[p] == '\r'
      ensures t[q] == '\n'
    {
      assert t[p] == s[i + p] && t[q] == s[i + q];
    }
  }

  lemma PrefixCr(s: string, i: nat)
    requires 0 < i <= |s| && CrOnlyBeforeLf(s) && s[i - 1] == '\n'
    ensures CrOnlyBeforeLf(s[..i])
  {
    var t := s[..i];
    assert t[i - 1] == s[i - 1];
    forall p, q | 0 <= p < q < i && q == p + 1 && t[p] == '\r'
      ensures t[q] == '\n'
    {
      assert t[p] == s[p] && t[q] == s[q];
    }
  }

  lemma StartIsNotAfter(k: Schema, d: Draft)
    requires Parsed(k, d)
    ensures !HasLine(After(k, d), k.composeStart)
  {
    Inside(k, d);
    PartsAreWholeLines(k, d);
    DraftIsItsMarks(k, d);
    StartIsNotIn(Before(k, d), Compose(k, d), After(k, d), k.composeStart, d.composeStart);
  }

  lemma StartIsNotIn(pre: string, mid: string, suf: string, marker: string, o: MarkerLine)
    requires WholeLines(pre) && WholeLines(mid) && o.lineStart < |pre|
    requires UniqueMarker(pre + mid + suf, marker) == Ok(Some(o))
    ensures !HasLine(suf, marker)
  {
    OnlyMarkIsBefore(pre + mid, suf, marker, o);
  }

  lemma OnlyMarkIsBefore(a: string, b: string, marker: string, o: MarkerLine)
    requires WholeLines(a) && UniqueMarker(a + b, marker) == Ok(Some(o)) && o.lineStart < |a|
    ensures !HasLine(b, marker)
  {
    UniqueMarkerMeans(a + b, marker);
    if HasLine(b, marker) {
      var i: nat :| LineStart(b, i) && LineAt(b, i) == marker;
      MarkOfAppend(a, b, marker, MarkerLine(|a| + i, |a| + LineEnd(b, i)));
    }
  }

  /** No line that is kept is a schema marker. */
  lemma KeptHasNoMarker(k: Schema, d: Draft, marker: string)
    requires Parsed(k, d) && k.Names(marker)
    ensures !HasLine(Kept(k, d), marker)
  {
    if HasLine(Kept(k, d), marker) {
      KeptLines(Removes(k), Compose(k, d) + After(k, d), 0, marker);
      PartsAreWholeLines(k, d);
      HasLineSplit(Compose(k, d), After(k, d), marker);
      ComposeHasNoMarker(k, d);
      StartIsNotAfter(k, d);
    }
  }

  lemma OutboundSection(k: Schema, d: Draft)
    requires Parsed(k, d)
    ensures Compose(k, d) + After(k, d) == d.body[d.composeStart.afterLine..]
  {
    Inside(k, d);
    CutInTwo(d.body, d.composeStart.afterLine, d.composeEnd.lineStart);
  }

  /** When carriage returns occur only before line feeds, no marker line leaves the
      workspace, whatever the draft. */
  lemma NoMarkerLeaves(k: Schema, d: Draft, marker: string)
    requires Parsed(k, d) && CrOnlyBeforeLf(d.body) && k.Names(marker)
    ensures !HasLine(Outbound(k, d.body).value, marker)
  {
    Inside(k, d);
    OutboundSection(k, d);
    SuffixCr(d.body, d.composeStart.afterLine);
    KeptCr(Removes(k), Compose(k, d) + After(k, d), 0);
    KeptHasNoMarker(k, d, marker);
    if HasLine(Trim(IsBreak, Kept(k, d)), marker) { TrimKeepsLines(Kept(k, d), marker); }
  }

  /** A replacement keeps carriage returns in front of line feeds. */
  lemma ReplacedCr(k: Schema, d: Draft, authored: string)
    requires Parsed(k, d) && CrOnlyBeforeLf(d.body) && CrOnlyBeforeLf(authored)
    ensures CrOnlyBeforeLf(Replaced(k, d.body, authored).value)
  {
    PartsAreWholeLines(k, d);
    Inside(k, d);
    MarkIsWholeLine(d.body, k.composeStart, d.composeStart);
    PrefixCr(d.body, d.composeStart.afterLine);
    SuffixCr(d.body, d.composeEnd.lineStart);
    TrimmedCr(authored);
    FourCr(Before(k, d), Trim(IsBreak, authored), Ending(k, d), After(k, d));
  }

  lemma FourCr(a: string, text: string, ending: string, b: string)
    requires CrOnlyBeforeLf(a) && CrOnlyBeforeLf(text) && LineEnding(ending) && CrOnlyBeforeLf(b)
    ensures CrOnlyBeforeLf(a + (text + ending) + b)
  {
    JoinedCr(text, ending);
    JoinedCr(a, text + ending);
    JoinedCr(a + (text + ending), b);
  }

  /** In particular none leaves after a replacement. */
  lemma NoMarkerLeavesReplaced(k: Schema, d: Draft, authored: string, marker: string)
    requires k.Valid() && Parsed(k, d) && !HasMarkerLine(k, Trim(IsBreak, authored))
    requires CrOnlyBeforeLf(d.body) && CrOnlyBeforeLf(authored) && k.Names(marker)
    ensures Outbound(k, Replaced(k, d.body, authored).value).Ok?
    ensures !HasLine(Outbound(k, Replaced(k, d.body, authored).value).value, marker)
  {
    var d' := PutThenGet(k, d, authored);
    ReplacedCr(k, d, authored);
    NoMarkerLeaves(k, d', marker);
  }
}
