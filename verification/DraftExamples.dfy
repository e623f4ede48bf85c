/** Small drafts at which the conditions of the draft theorems fail. */
module DraftExamples {
  import opened Wrappers
  import opened Text
  import opened DraftContent
  import opened DraftLens
  import opened DraftOutbound
  import opened DraftLeaks

  ghost predicate NoBreaks(s: string) { s != "" && forall i :: 0 <= i < |s| ==> !IsBreak(s[i]) }

  /** Markers that are lines of their own text. */
  ghost predicate PlainMarkers(k: Schema) {
    k.Valid() && NoBreaks(k.composeStart) && NoBreaks(k.composeEnd) && NoBreaks(k.quoteStart) && NoBreaks(k.quoteEnd)
  }

  lemma ComposeStartIsPlain()
    ensures NoBreaks(AFMAIL.composeStart)
  {
  }

  lemma QuoteStartIsPlain()
    ensures NoBreaks(AFMAIL.quoteStart)
  {
  }

  lemma EndMarkersArePlain()
    ensures NoBreaks(AFMAIL.composeEnd) && NoBreaks(AFMAIL.quoteEnd)
  {
  }

  lemma AfmailMarkersArePlain()
    ensures PlainMarkers(AFMAIL)
  {
    AfmailMarkersAreValid();
    ComposeStartIsPlain();
    QuoteStartIsPlain();
    EndMarkersArePlain();
  }

  /** The lines of a text that is one line. */
  lemma OneLine(line: string, marker: string, o: MarkerLine)
    requires NoBreaks(line)
    ensures IsMark(line + "\n", marker, o) <==> marker == line && o == MarkerLine(0, |line| + 1)
    ensures WholeLines(line + "\n")
  {
    var s := line + "\n";
    LineEndIs(s, 0, |s|);
    assert forall i :: 0 <= i < |line| ==> s[i] == line[i];
    assert s[0..|s|] == s;
    LineOfTerminated(line, "\n");
  }

  function Head(k: Schema): string { k.composeStart + "\n" }

  function Rest(k: Schema, tail: string): string { k.composeEnd + "\n" + tail }

  /** A draft with an empty compose section, no quote, and a tail. */
  function EmptyDraft(k: Schema, tail: string): Draft {
    var n, m := |k.composeStart| + 1, |k.composeEnd| + 1;
    Draft(Head(k) + "" + Rest(k, tail), MarkerLine(0, n), MarkerLine(n, n + m), None)
  }

  lemma MarksOfTwo(k: Schema, tail: string, marker: string, o: MarkerLine)
    requires PlainMarkers(k) && !HasLine(tail, marker)
    ensures IsMark(EmptyDraft(k, tail).body, marker, o)
            <==> (marker == k.composeStart && o == EmptyDraft(k, tail).composeStart)
                 || (marker == k.composeEnd && o == EmptyDraft(k, tail).composeEnd)
  {
    var a, b := Head(k), k.composeEnd + "\n";
    OneLine(k.composeStart, marker, o);
    MarksAreLines(tail, marker);
    assert EmptyDraft(k, tail).body == a + b + tail;
    MarkOfThree(a, b, tail, marker, o);
    if o.lineStart >= |a| && o.afterLine >= |a| { OneLine(k.composeEnd, marker, Shift(o, -|a|)); }
    OneLine(k.composeEnd, marker, MarkerLine(0, |b|));
  }

  lemma SearchOfTwo(k: Schema, tail: string, marker: string, found: Option<MarkerLine>)
    requires PlainMarkers(k) && !HasLine(tail, marker)
    requires found == if marker == k.composeStart then Some(EmptyDraft(k, tail).composeStart)
                      else if marker == k.composeEnd then Some(EmptyDraft(k, tail).composeEnd) else None
    ensures UniqueMarker(EmptyDraft(k, tail).body, marker) == Ok(found)
  {
    var body := EmptyDraft(k, tail).body;
    forall o
      ensures IsMark(body, marker, o) <==> Some(o) == found
    {
      MarksOfTwo(k, tail, marker, o);
    }
    UniqueMarkerMeans(body, marker);
    MarksAreLines(body, marker);
    if found.Some? { assert IsMark(body, marker, found.value); }
  }

  lemma EmptyDraftParses(k: Schema, tail: string)
    requires PlainMarkers(k) && !HasMarkerLine(k, tail)
    ensures Parsed(k, EmptyDraft(k, tail))
  {
    var d := EmptyDraft(k, tail);
    SearchOfTwo(k, tail, k.composeStart, Some(d.composeStart));
    SearchOfTwo(k, tail, k.composeEnd, Some(d.composeEnd));
    SearchOfTwo(k, tail, k.quoteStart, None);
    SearchOfTwo(k, tail, k.quoteEnd, None);
    DraftIsItsMarks(k, d);
  }

  lemma EmptyDraftParts(k: Schema, tail: string)
    requires PlainMarkers(k) && !HasMarkerLine(k, tail)
    ensures Parsed(k, EmptyDraft(k, tail))
    ensures Compose(k, EmptyDraft(k, tail)) == "" && After(k, EmptyDraft(k, tail)) == Rest(k, tail)
  {
    EmptyDraftParses(k, tail);
    PartsOf(Head(k), "", Rest(k, tail));
  }

  lemma NothingHasNoLines(k: Schema)
    ensures !HasMarkerLine(k, "")
  {
  }

  // ----- inputs at which a condition fails -----

  /** Writing a marker line into a draft leaves a body that does not parse. */
  lemma MarkerTextDoesNotParse()
    ensures var d := EmptyDraft(AFMAIL, "");
            Parsed(AFMAIL, d) && Replaced(AFMAIL, d.body, AFMAIL.quoteEnd).Ok?
            && ParseDraft(AFMAIL, Replaced(AFMAIL, d.body, AFMAIL.quoteEnd).value).Err?
  {
    AfmailMarkersArePlain();
    MarkerTextFails(AFMAIL);
  }

  lemma MarkerTextFails(k: Schema)
    requires PlainMarkers(k)
    ensures var d := EmptyDraft(k, "");
            Parsed(k, d) && Replaced(k, d.body, k.quoteEnd).Ok?
            && ParseDraft(k, Replaced(k, d.body, k.quoteEnd).value).Err?
  {
    var line := k.quoteEnd;
    NothingHasNoLines(k);
    EmptyDraftParts(k, "");
    ReplacementParses(k, EmptyDraft(k, ""), line);
    assert Trim(IsBreak, line) == line;
    TerminateKeepsLines(line, "\n", line);
    OneLine(line, line, MarkerLine(0, |line| + 1));
    MarksAreLines(line + "\n", line);
  }

  /** Putting back the nothing that was read from an empty section adds a line ending. */
  lemma EmptySectionGrows()
    ensures var d := EmptyDraft(AFMAIL, "");
            Parsed(AFMAIL, d) && Replaced(AFMAIL, d.body, Trim(IsBreak, Compose(AFMAIL, d))) != Ok(d.body)
  {
    AfmailMarkersArePlain();
    NothingHasNoLines(AFMAIL);
    EmptyDraftParts(AFMAIL, "");
    GetThenPut(AFMAIL, EmptyDraft(AFMAIL, ""));
  }

  /** A last line that is a quote end marker with two carriage returns is no marker line; the
      final trim makes it one, and it leaves the workspace. */
  lemma MarkerLeaves()
    ensures var d := EmptyDraft(AFMAIL, AFMAIL.quoteEnd + "\r\r");
            Parsed(AFMAIL, d) && Outbound(AFMAIL, d.body) == Ok(AFMAIL.quoteEnd)
            && HasLine(AFMAIL.quoteEnd, AFMAIL.quoteEnd)
  {
    AfmailMarkersArePlain();
    MarkerTailLeaves(AFMAIL);
  }

  /** Text without a line feed is one line. */
  lemma OneOpenLine(s: string, line: string)
    requires s != "" && '\n' !in s
    ensures HasLine(s, line) <==> line == Line(s)
  {
    assert forall i :: 0 <= i < |s| ==> s[i] != '\n' by { assert forall i :: 0 <= i < |s| ==> s[i] in s; }
    LineEndIs(s, 0, |s|);
    SingleLine(s, line);
  }

  lemma TailIsNoMarker(k: Schema)
    requires PlainMarkers(k)
    ensures !HasMarkerLine(k, k.quoteEnd + "\r\r") && '\n' !in k.quoteEnd + "\r\r"
  {
    var s := k.quoteEnd + "\r\r";
    var line := k.quoteEnd + "\r";
    assert '\n' !in s by {
      assert forall i :: 0 <= i < |k.quoteEnd| ==> s[i] == k.quoteEnd[i];
    }
    assert s[..|s| - 1] == line && line[|line| - 1] == '\r';
    forall marker | k.Names(marker)
      ensures !HasLine(s, marker)
    {
      OneOpenLine(s, marker);
    }
  }

  lemma MarkerTailLeaves(k: Schema)
    requires PlainMarkers(k)
    ensures var d := EmptyDraft(k, k.quoteEnd + "\r\r");
            Parsed(k, d) && Outbound(k, d.body) == Ok(k.quoteEnd) && HasLine(k.quoteEnd, k.quoteEnd)
  {
    var tail := k.quoteEnd + "\r\r";
    TailIsNoMarker(k);
    EmptyDraftParts(k, tail);
    KeptOfRest(k, tail);
    TrimOfTail(k.quoteEnd);
    OneOpenLine(k.quoteEnd, k.quoteEnd);
  }

  lemma TrimOfTail(line: string)
    requires NoBreaks(line)
    ensures Trim(IsBreak, line + "\r\r") == line && Line(line) == line && '\n' !in line
  {
    assert "" + line + "\r\r" == line + "\r\r";
    TrimUnique(IsBreak, "", line, "\r\r");
  }

  lemma KeptTail(drop: string -> bool, tail: string)
    requires tail != "" && '\n' !in tail && !drop(Line(tail))
    ensures KeptFrom(drop, tail, 0) == tail
  {
    assert forall i :: 0 <= i < |tail| ==> tail[i] != '\n' by { assert forall i :: 0 <= i < |tail| ==> tail[i] in tail; }
    LineEndIs(tail, 0, |tail|);
    assert tail[0..|tail|] == tail;
    KeptStep(drop, tail, 0);
    Assoc(tail, "", "");
  }

  lemma KeptHead(drop: string -> bool, line: string, tail: string)
    requires NoBreaks(line) && drop(line)
    ensures KeptFrom(drop, line + "\n" + tail, 0) == KeptFrom(drop, tail, 0)
  {
    var b := line + "\n";
    OneLine(line, line, MarkerLine(0, |b|));
    LineInFirst(b, tail, 0);
    KeptStep(drop, b + tail, 0);
    KeptInSecond(drop, b, tail);
  }

  /** Removal drops the compose end line and keeps a tail of one other line. */
  lemma KeptOfRest(k: Schema, tail: string)
    requires PlainMarkers(k) && tail != "" && '\n' !in tail && !HasMarkerLine(k, tail)
    ensures KeptFrom(Removes(k), "" + Rest(k, tail), 0) == tail
  {
    Assoc("", "", Rest(k, tail));
    TailStays(k, tail);
    KeptOfTwo(Removes(k), k.composeEnd, tail);
  }

  lemma TailStays(k: Schema, tail: string)
    requires tail != "" && '\n' !in tail && !HasMarkerLine(k, tail)
    ensures Removes(k)(k.composeEnd) && !Removes(k)(Line(tail))
  {
    OneOpenLine(tail, Line(tail));
  }

  lemma KeptOfTwo(drop: string -> bool, line: string, tail: string)
    requires NoBreaks(line) && drop(line) && tail != "" && '\n' !in tail && !drop(Line(tail))
    ensures KeptFrom(drop, line + "\n" + tail, 0) == tail
  {
    KeptHead(drop, line, tail);
    KeptTail(drop, tail);
  }
}
