/** Replacing the authored text of a draft is a lens: it is read back, it touches nothing
    else, and only the last replacement counts. */
module DraftLens {
  import opened Wrappers
  import opened Text
  import opened DraftContent

  function MarkerLineEnding(body: string, marker: MarkerLine): (ending: string)
    requires marker.lineStart < marker.afterLine <= |body|
    ensures LineEnding(ending)
  {
    if marker.lineStart + 2 <= marker.afterLine && body[marker.afterLine - 2] == '\r' && body[marker.afterLine - 1] == '\n'
    then "\r\n" else "\n"
  }

  /** The line ending a replacement of this draft's text uses. */
  ghost function Ending(k: Schema, d: Draft): (ending: string)
    requires Parsed(k, d)
    ensures LineEnding(ending)
  {
    Inside(k, d);
    MarkerLineEnding(d.body, d.composeStart)
  }

  ghost function Replaced(k: Schema, body: string, authored: string): Result<string, Error> {
    match ParseDraft(k, body)
    case Err(e) => Err(e)
    case Ok(d) => Ok(Before(k, d) + (Trim(IsBreak, authored) + Ending(k, d)) + After(k, d))
  }

  lemma Assemble(a: string, text: string, ending: string, b: string)
    ensures (if text != "" then a + text else a) + ending + b == a + (text + ending) + b
  {
  }

  method ReplaceAuthoredText(k: Schema, body: string, authored: string) returns (r: Result<string, Error>)
    ensures r == Replaced(k, body, authored)
  {
    var parsed := ParseDraftContent(k, body);
    if parsed.Err? { return Err(parsed.error); }
    var d := parsed.value;
    Inside(k, d);
    var text := Trim(IsBreak, authored);
    var ending := MarkerLineEnding(body, d.composeStart);
    var updated := body[..d.composeStart.afterLine];
    if text != "" {
      updated := updated + text;
    }
    updated := updated + ending;
    updated := updated + body[d.composeEnd.lineStart..];
    Assemble(Before(k, d), text, ending, After(k, d));
    return Ok(updated);
  }

  /** The stretch of the body that is shown and edited as authored text. */
  ghost function AuthoredRange(k: Schema, d: Draft): (nat, nat)
    requires Parsed(k, d)
  {
    var raw := Compose(k, d);
    TrimIs(IsBreak, raw);
    var start := d.composeStart.afterLine + (|raw| - |TrimStart(IsBreak, raw)|);
    (start, start + |Trim(IsBreak, raw)|)
  }

  ghost predicate MovedBy(o: MarkerLine, o': MarkerLine, delta: int) {
    o'.lineStart == o.lineStart + delta && o'.afterLine == o.afterLine + delta
  }

  /** The draft after its compose section grew by `delta`. */
  ghost predicate MovedDraft(d: Draft, d': Draft, delta: int) {
    && d'.composeStart == d.composeStart && MovedBy(d.composeEnd, d'.composeEnd, delta)
    && d'.quote.Some? == d.quote.Some?
    && (d.quote.Some? ==>
          && MovedBy(d.quote.value.start, d'.quote.value.start, delta)
          && MovedBy(d.quote.value.end, d'.quote.value.end, delta))
  }

  lemma TextIsWholeLines(k: Schema, text: string, ending: string)
    requires k.Valid() && LineEnding(ending) && Trimmed(IsBreak, text)
    ensures WholeLines(text + ending)
    ensures HasMarkerLine(k, text + ending) <==> HasMarkerLine(k, text)
  {
    TerminateKeepsLines(text, ending, k.composeStart);
    TerminateKeepsLines(text, ending, k.composeEnd);
    TerminateKeepsLines(text, ending, k.quoteStart);
    TerminateKeepsLines(text, ending, k.quoteEnd);
  }

  /** A draft whose compose section is exchanged for marker-free whole lines parses, with
      the same start and everything later moved. */
  lemma ExchangeParses(k: Schema, d: Draft, mid': string) returns (d': Draft)
    requires Parsed(k, d) && WholeLines(mid') && !HasMarkerLine(k, mid')
    ensures d'.body == Before(k, d) + mid' + After(k, d) && Parsed(k, d')
    ensures MovedDraft(d, d', |mid'| - |Compose(k, d)|)
  {
    PartsAreWholeLines(k, d);
    ComposeHasNoMarker(k, d);
    Inside(k, d);
    DraftIsItsMarks(k, d);
    d' := Exchanged(Before(k, d), Compose(k, d), mid', After(k, d), k, d);
    DraftIsItsMarks(k, d');
  }

  lemma Exchanged(pre: string, mid: string, mid': string, suf: string, k: Schema, d: Draft) returns (d': Draft)
    requires WholeLines(pre) && WholeLines(mid) && WholeLines(mid') && d.body == pre + mid + suf
    requires !HasMarkerLine(k, mid) && !HasMarkerLine(k, mid')
    requires d.composeStart.lineStart < |pre| && |pre| + |mid| <= d.composeEnd.lineStart
    requires d.composeEnd.lineStart < d.composeEnd.afterLine
    requires UniqueMarker(d.body, k.composeStart) == Ok(Some(d.composeStart))
    requires UniqueMarker(d.body, k.composeEnd) == Ok(Some(d.composeEnd))
    requires UniqueMarker(d.body, k.quoteStart) == Ok(QuoteStart(d))
    requires UniqueMarker(d.body, k.quoteEnd) == Ok(QuoteEnd(d))
    requires d.quote.Some? ==>
               && |pre| + |mid| <= d.quote.value.start.lineStart && |pre| + |mid| <= d.quote.value.end.lineStart
    ensures d'.body == pre + mid' + suf && MovedDraft(d, d', |mid'| - |mid|)
    ensures UniqueMarker(d'.body, k.composeStart) == Ok(Some(d'.composeStart))
    ensures UniqueMarker(d'.body, k.composeEnd) == Ok(Some(d'.composeEnd))
    ensures UniqueMarker(d'.body, k.quoteStart) == Ok(QuoteStart(d'))
    ensures UniqueMarker(d'.body, k.quoteEnd) == Ok(QuoteEnd(d'))
  {
    var body' := pre + mid' + suf;
    var start := FoundAgain(pre, mid, mid', suf, k.composeStart, Some(d.composeStart));
    var end := FoundAgain(pre, mid, mid', suf, k.composeEnd, Some(d.composeEnd));
    var quoteStart := FoundAgain(pre, mid, mid', suf, k.quoteStart, QuoteStart(d));
    var quoteEnd := FoundAgain(pre, mid, mid', suf, k.quoteEnd, QuoteEnd(d));
    d' := Draft(body', start.value, end.value,
                if d.quote.Some? then Some(Quote(quoteStart.value, quoteEnd.value)) else None);
  }

  lemma FoundAgain(pre: string, mid: string, mid': string, suf: string, marker: string, found: Option<MarkerLine>)
    returns (again: Option<MarkerLine>)
    requires WholeLines(pre) && WholeLines(mid) && WholeLines(mid')
    requires !HasLine(mid, marker) && !HasLine(mid', marker)
    requires UniqueMarker(pre + mid + suf, marker) == Ok(found)
    ensures UniqueMarker(pre + mid' + suf, marker) == Ok(again) && again.Some? == found.Some?
    ensures found.Some? && found.value.lineStart < |pre| ==> again == found
    ensures found.Some? && found.value.lineStart >= |pre| + |mid| ==> MovedBy(found.value, again.value, |mid'| - |mid|)
  {
    SearchMoves(pre, mid, mid', suf, marker);
    again := UniqueMarker(pre + mid' + suf, marker).value;
  }

  lemma KeptMarks(pre: string, mid: string, mid': string, suf: string, composeStart: string, composeEnd: string,
                  start: MarkerLine, end: MarkerLine)
    requires WholeLines(pre) && WholeLines(mid) && WholeLines(mid')
    requires start.lineStart < |pre| && |pre| + |mid| <= end.lineStart < end.afterLine
    requires IsMark(pre + mid + suf, composeStart, start) && IsMark(pre + mid + suf, composeEnd, end)
    ensures IsMark(pre + mid' + suf, composeStart, start)
    ensures IsMark(pre + mid' + suf, composeEnd, Shift(end, |mid'| - |mid|))
  {
    MarkOfThree(pre, mid, suf, composeStart, start);
    MarkOfThree(pre, mid', suf, composeStart, start);
    MarkOfThree(pre, mid, suf, composeEnd, end);
    MarkOfThree(pre, mid', suf, composeEnd, Shift(end, |mid'| - |mid|));
  }

  lemma PartsOf(pre: string, mid: string, suf: string)
    ensures var s, i, j := pre + mid + suf, |pre|, |pre| + |mid|; s[..i] == pre && s[i..j] == mid && s[j..] == suf
  {
  }

  /** The compose markers are still where the exchange left them, so a body that parses has
      exactly the exchanged compose section. */
  lemma ExchangedParts(k: Schema, d: Draft, mid': string, d': Draft)
    requires Parsed(k, d) && WholeLines(mid')
    requires d'.body == Before(k, d) + mid' + After(k, d) && Parsed(k, d')
    ensures d'.composeStart == d.composeStart
    ensures Before(k, d') == Before(k, d) && Compose(k, d') == mid' && After(k, d') == After(k, d)
  {
    PartsAreWholeLines(k, d);
    Inside(k, d);
    var pre, mid, suf := Before(k, d), Compose(k, d), After(k, d);
    KeptMarks(pre, mid, mid', suf, k.composeStart, k.composeEnd, d.composeStart, d.composeEnd);
    OnlyComposeMarks(k, d', d.composeStart, Shift(d.composeEnd, |mid'| - |mid|));
    PartsOf(pre, mid', suf);
  }

  /** The line ending depends only on the text up to the end of the marker line. */
  lemma EndingKept(body: string, body': string, o: MarkerLine)
    requires o.lineStart < o.afterLine <= |body| && o.afterLine <= |body'| && body'[..o.afterLine] == body[..o.afterLine]
    ensures MarkerLineEnding(body', o) == MarkerLineEnding(body, o)
  {
    assert forall i :: 0 <= i < o.afterLine ==> body'[i] == body'[..o.afterLine][i] && body[i] == body[..o.afterLine][i];
  }

  ghost predicate EndsInCrLf(s: string) { |s| >= 2 && s[|s| - 2] == '\r' && s[|s| - 1] == '\n' }

  /** The ending is the one of the compose start line. */
  lemma EndingIs(k: Schema, d: Draft)
    requires Parsed(k, d)
    ensures Ending(k, d) == if EndsInCrLf(Before(k, d)) then "\r\n" else "\n"
  {
    Inside(k, d);
    var o, s := d.composeStart, d.body;
    MarkIsWholeLine(s, k.composeStart, o);
    var before := s[..o.afterLine];
    assert forall i :: 0 <= i < o.afterLine ==> before[i] == s[i];
  }

  /** What a replaced body reads: a carriage return is written exactly when the compose start
      line ends in one and a line feed. */
  lemma ReplacedReads(k: Schema, d: Draft, authored: string)
    requires Parsed(k, d)
    ensures Replaced(k, d.body, authored)
            == Ok(Before(k, d) + (Trim(IsBreak, authored) + (if EndsInCrLf(Before(k, d)) then "\r\n" else "\n")) + After(k, d))
  {
    EndingIs(k, d);
  }

  /** Every line feed follows a carriage return. */
  ghost predicate LfOnlyAfterCr(s: string) {
    && (s != "" ==> s[0] != '\n')
    && (forall i, j :: 0 <= i < j < |s| && j == i + 1 && s[j] == '\n' ==> s[i] == '\r')
  }

  lemma JoinedLf(a: string, b: string)
    requires LfOnlyAfterCr(a) && LfOnlyAfterCr(b)
    ensures LfOnlyAfterCr(a + b)
  {
  }

  lemma PartLf(s: string, i: nat, j: nat)
    requires i <= j <= |s| && LfOnlyAfterCr(s) && (i < j ==> s[i] != '\n')
    ensures LfOnlyAfterCr(s[i..j])
  {
    var t := s[i..j];
    forall p, q | 0 <= p < q < |t| && q == p + 1 && t[q] == '\n'
      ensures t[p] == '\r'
    {
      assert t[q] == s[i + q] && t[p] == s[i + p];
    }
  }

  /** Trimmed text starts with no break. */
  lemma TrimmedLf(s: string)
    requires LfOnlyAfterCr(s)
    ensures LfOnlyAfterCr(Trim(IsBreak, s))
  {
    TrimIs(IsBreak, s);
    var t, i := Trim(IsBreak, s), |s| - |TrimStart(IsBreak, s)|;
    if t != "" { assert t[0] == s[i]; }
    PartLf(s, i, i + |t|);
  }

  /** A CR LF draft stays one when CR LF text is written into it. */
  lemma CrLfStays(k: Schema, d: Draft, authored: string)
    requires k.Valid() && Parsed(k, d) && LfOnlyAfterCr(d.body) && LfOnlyAfterCr(authored)
    ensures LfOnlyAfterCr(Replaced(k, d.body, authored).value)
  {
    PartsAreWholeLines(k, d);
    Inside(k, d);
    var n, m := d.composeStart.afterLine, d.composeEnd.lineStart;
    MarkIsWholeLine(d.body, k.composeStart, d.composeStart);
    EndingIs(k, d);
    StartsPlain(d.body, k.composeEnd, d.composeEnd);
    LastIsCrLf(d.body, n);
    PartLf(d.body, 0, n);
    PartLf(d.body, m, |d.body|);
    assert d.body[0..n] == Before(k, d) && d.body[m..|d.body|] == After(k, d);
    TrimmedLf(authored);
    ThreeLf(Before(k, d), Trim(IsBreak, authored), After(k, d));
  }

  lemma ThreeLf(a: string, text: string, b: string)
    requires LfOnlyAfterCr(a) && LfOnlyAfterCr(text) && LfOnlyAfterCr(b)
    ensures LfOnlyAfterCr(a + (text + "\r\n") + b)
  {
    JoinedLf(text, "\r\n");
    JoinedLf(a, text + "\r\n");
    JoinedLf(a + (text + "\r\n"), b);
  }

  lemma StartsPlain(s: string, marker: string, o: MarkerLine)
    requires IsMark(s, marker, o) && marker != ""
    ensures s[o.lineStart] != '\n'
  {
    FeedIsEmptyLine(s, o.lineStart);
  }

  lemma FeedIsEmptyLine(s: string, i: nat)
    requires i < |s|
    ensures s[i] == '\n' ==> LineAt(s, i) == ""
  {
    if s[i] == '\n' {
      LineEndIs(s, i, i + 1);
      assert s[i..i + 1] == "" + "\n";
      LineOfTerminated("", "\n");
    }
  }

  lemma LastIsCrLf(s: string, n: nat)
    requires 0 < n <= |s| && s[n - 1] == '\n' && LfOnlyAfterCr(s)
    ensures EndsInCrLf(s[..n])
  {
    assert n > 1 && s[n - 2] == '\r';
    assert s[..n][n - 1] == s[n - 1] && s[..n][n - 2] == s[n - 2];
  }

  lemma PartHasNot(s: string, c: char, i: nat, j: nat)
    requires i <= j <= |s| && c !in s
    ensures c !in s[i..j]
  {
  }

  lemma JoinHasNot(a: string, text: string, ending: string, b: string, c: char)
    requires c !in a && c !in text && c !in ending && c !in b
    ensures c !in a + (text + ending) + b
  {
  }

  lemma TrimHasNot(s: string, c: char)
    requires c !in s
    ensures c !in Trim(IsBreak, s)
  {
    TrimIs(IsBreak, s);
    var i := |s| - |TrimStart(IsBreak, s)|;
    PartHasNot(s, c, i, i + |Trim(IsBreak, s)|);
  }

  lemma PartsHaveNot(k: Schema, d: Draft, c: char)
    requires Parsed(k, d) && c !in d.body
    ensures c !in Before(k, d) && c !in After(k, d)
  {
    Inside(k, d);
    PartHasNot(d.body, c, 0, d.composeStart.afterLine);
    PartHasNot(d.body, c, d.composeEnd.lineStart, |d.body|);
    assert Before(k, d) == d.body[0..d.composeStart.afterLine];
    assert After(k, d) == d.body[d.composeEnd.lineStart..|d.body|];
  }

  /** A draft and a text without carriage returns give a body without any. */
  lemma NoCrComesIn(k: Schema, d: Draft, authored: string)
    requires Parsed(k, d) && '\r' !in d.body && '\r' !in authored
    ensures '\r' !in Replaced(k, d.body, authored).value
  {
    PartsHaveNot(k, d, '\r');
    TrimHasNot(authored, '\r');
    ReplacedReads(k, d, authored);
    assert !EndsInCrLf(Before(k, d));
    JoinHasNot(Before(k, d), Trim(IsBreak, authored), "\n", After(k, d), '\r');
  }

  /** The draft a replacement leaves, with its three parts. */
  lemma ReplacedParts(k: Schema, d: Draft, authored: string, d': Draft)
    requires k.Valid() && Parsed(k, d) && Parsed(k, d') && Replaced(k, d.body, authored) == Ok(d'.body)
    ensures d'.composeStart == d.composeStart && Ending(k, d') == Ending(k, d)
    ensures Before(k, d') == Before(k, d) && After(k, d') == After(k, d)
    ensures Compose(k, d') == Trim(IsBreak, authored) + Ending(k, d)
  {
    TrimIs(IsBreak, authored);
    TextIsWholeLines(k, Trim(IsBreak, authored), Ending(k, d));
    ExchangedParts(k, d, Trim(IsBreak, authored) + Ending(k, d), d');
    Inside(k, d);
    Inside(k, d');
    EndingKept(d.body, d'.body, d.composeStart);
  }

  /** A replacement yields a draft exactly when the trimmed text has no marker line. */
  lemma ReplacementParses(k: Schema, d: Draft, authored: string)
    requires k.Valid() && Parsed(k, d)
    ensures Replaced(k, d.body, authored).Ok?
    ensures ParseDraft(k, Replaced(k, d.body, authored).value).Ok? <==> !HasMarkerLine(k, Trim(IsBreak, authored))
  {
    TrimIs(IsBreak, authored);
    var body' := Replaced(k, d.body, authored).value;
    TextIsWholeLines(k, Trim(IsBreak, authored), Ending(k, d));
    if HasMarkerLine(k, Trim(IsBreak, authored)) {
      if ParseDraft(k, body').Ok? {
        var d' := ParseDraft(k, body').value;
        ReplacedParts(k, d, authored, d');
        ComposeHasNoMarker(k, d');
      }
    } else {
      var _ := ExchangeParses(k, d, Trim(IsBreak, authored) + Ending(k, d));
    }
  }

  lemma TrimTerminated(text: string, ending: string)
    requires LineEnding(ending) && Trimmed(IsBreak, text)
    ensures var raw := text + ending; var from := |raw| - |TrimStart(IsBreak, raw)|;
            0 <= from && from + |text| <= |raw| && raw[from..from + |text|] == text && Trim(IsBreak, raw) == text
  {
    assert "" + text + ending == text + ending;
    TrimUnique(IsBreak, "", text, ending);
  }

  /** The authored range of a section that is a trimmed text and its line ending. */
  lemma RangeIsText(k: Schema, d: Draft, text: string, ending: string)
    requires Parsed(k, d) && Compose(k, d) == text + ending
    requires LineEnding(ending) && Trimmed(IsBreak, text)
    ensures var (start, end) := AuthoredRange(k, d);
            start <= end <= |d.body| && d.body[start..end] == text
  {
    Inside(k, d);
    StretchIsText(d.body, d.composeStart.afterLine, d.composeEnd.lineStart, text, ending);
  }

  lemma StretchIsText(s: string, a: nat, b: nat, text: string, ending: string)
    requires a <= b <= |s| && s[a..b] == text + ending && LineEnding(ending) && Trimmed(IsBreak, text)
    ensures var raw := text + ending; var from := a + (|raw| - |TrimStart(IsBreak, raw)|);
            a <= from && from + |text| <= |s| && s[from..from + |text|] == text && Trim(IsBreak, raw) == text
  {
    var raw := text + ending;
    var from := |raw| - |TrimStart(IsBreak, raw)|;
    TrimTerminated(text, ending);
    SliceOfSlice(s, a, b, from, from + |text|);
  }

  /** What was put is read back, and every character before the compose section and from the
      compose end line on is unchanged. */
  lemma PutThenGet(k: Schema, d: Draft, authored: string) returns (d': Draft)
    requires k.Valid() && Parsed(k, d) && !HasMarkerLine(k, Trim(IsBreak, authored))
    ensures Replaced(k, d.body, authored) == Ok(d'.body) && Parsed(k, d')
    ensures var (start, end) := AuthoredRange(k, d');
            start <= end <= |d'.body| && d'.body[start..end] == Trim(IsBreak, authored)
    ensures Before(k, d') == Before(k, d) && After(k, d') == After(k, d)
    ensures MovedDraft(d, d', |d'.body| - |d.body|)
  {
    var text, ending := Trim(IsBreak, authored), Ending(k, d);
    TrimIs(IsBreak, authored);
    TextIsWholeLines(k, text, ending);
    d' := ExchangeParses(k, d, text + ending);
    PartsAreWholeLines(k, d);
    ReplacedParts(k, d, authored, d');
    RangeIsText(k, d', text, ending);
  }

  /** A second replacement gives what replacing the original directly gives. */
  lemma PutThenPut(k: Schema, d: Draft, first: string, second: string)
    requires k.Valid() && Parsed(k, d) && !HasMarkerLine(k, Trim(IsBreak, first))
    ensures Replaced(k, Replaced(k, d.body, first).value, second) == Replaced(k, d.body, second)
  {
    var d' := PutThenGet(k, d, first);
    ReplacedParts(k, d, first, d');
  }

  lemma Cancel(pre: string, mid: string, mid': string, suf: string)
    ensures pre + mid + suf == pre + mid' + suf <==> mid == mid'
  {
    if pre + mid + suf == pre + mid' + suf {
      assert (pre + mid + suf)[|pre|..|pre + mid + suf| - |suf|] == mid;
      assert (pre + mid' + suf)[|pre|..|pre + mid' + suf| - |suf|] == mid';
    }
  }

  lemma TrimTwice(s: string)
    ensures Trim(IsBreak, Trim(IsBreak, s)) == Trim(IsBreak, s)
  {
    var text := Trim(IsBreak, s);
    TrimIs(IsBreak, s);
    assert "" + text + "" == text;
    TrimUnique(IsBreak, "", text, "");
  }

  /** One line ending closes the section, and no other break stands at either end. */
  ghost predicate ClosedOnce(raw: string, ending: string) {
    var n := |raw| - |ending|;
    0 <= n && raw[n..] == ending && Trimmed(IsBreak, raw[..n])
  }

  lemma TrimClosedOnce(raw: string, ending: string)
    requires LineEnding(ending)
    ensures ClosedOnce(raw, ending) <==> raw == Trim(IsBreak, raw) + ending
  {
    var n, text := |raw| - |ending|, Trim(IsBreak, raw);
    TrimIs(IsBreak, raw);
    if ClosedOnce(raw, ending) {
      assert raw == raw[..n] + ending;
      TrimTerminated(raw[..n], ending);
    }
  }

  /** Putting back what was read changes nothing exactly when the compose section has no
      break in front and one line ending, the marker's, at its end. */
  lemma GetThenPut(k: Schema, d: Draft)
    requires Parsed(k, d)
    ensures Replaced(k, d.body, Trim(IsBreak, Compose(k, d))) == Ok(d.body) <==> ClosedOnce(Compose(k, d), Ending(k, d))
  {
    PartsAreWholeLines(k, d);
    var raw := Compose(k, d);
    var text := Trim(IsBreak, raw);
    TrimTwice(raw);
    Cancel(Before(k, d), text + Ending(k, d), raw, After(k, d));
    TrimClosedOnce(raw, Ending(k, d));
  }
}
