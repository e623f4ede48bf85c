/** Draft bodies: marker lines delimit the authored section and an optional quote. */
module DraftContent {
  import opened Wrappers
  import opened Text

  /** The four marker texts. The theory needs only that they are different, non-empty lines. */
  datatype Schema = Schema(composeStart: string, composeEnd: string, quoteStart: string, quoteEnd: string) {
    ghost predicate Valid() {
      && composeStart != composeEnd && composeStart != quoteStart && composeStart != quoteEnd
      && composeEnd != quoteStart && composeEnd != quoteEnd && quoteStart != quoteEnd
      && composeStart != "" && composeEnd != "" && quoteStart != "" && quoteEnd != ""
    }

    predicate Names(marker: string) {
      marker == composeStart || marker == composeEnd || marker == quoteStart || marker == quoteEnd
    }
  }

  const AFMAIL := Schema("<!-- afmail:compose:start -->", "<!-- afmail:compose:end -->",
                         "<!-- afmail:quote:start -->", "<!-- afmail:quote:end -->")

  /** afmail's own markers are such a schema. */
  lemma AfmailMarkersAreValid()
    ensures AFMAIL.Valid()
  {
    assert AFMAIL.composeStart[12] == 'c' && AFMAIL.composeEnd[12] == 'c';
    assert AFMAIL.quoteStart[12] == 'q' && AFMAIL.quoteEnd[12] == 'q';
    assert |AFMAIL.composeStart| == 29 && |AFMAIL.composeEnd| == 27;
    assert |AFMAIL.quoteStart| == 27 && |AFMAIL.quoteEnd| == 25;
  }

  datatype MarkerLine = MarkerLine(lineStart: nat, afterLine: nat)

  datatype Error =
    | MissingMarker(marker: string)
    | DuplicateMarker(marker: string)
    | InvalidMarkerOrder(start: string, end: string)
    | QuoteBeforeComposeEnd

  datatype Quote = Quote(start: MarkerLine, end: MarkerLine)

  datatype Draft = Draft(body: string, composeStart: MarkerLine, composeEnd: MarkerLine, quote: Option<Quote>)

  ghost predicate HasMarkerLine(k: Schema, s: string) {
    HasLine(s, k.composeStart) || HasLine(s, k.composeEnd) || HasLine(s, k.quoteStart) || HasLine(s, k.quoteEnd)
  }

  /** `o` is a line of `body` that reads exactly `marker`. */
  ghost predicate IsMark(body: string, marker: string, o: MarkerLine) {
    && LineStart(body, o.lineStart)
    && o.afterLine == LineEnd(body, o.lineStart)
    && LineAt(body, o.lineStart) == marker
  }

  lemma MarksAreLines(s: string, marker: string)
    ensures HasLine(s, marker) <==> exists o :: IsMark(s, marker, o)
  {
    if HasLine(s, marker) {
      var i: nat :| LineStart(s, i) && LineAt(s, i) == marker;
      assert IsMark(s, marker, MarkerLine(i, LineEnd(s, i)));
    }
  }

  /** Two different lines read `marker`. */
  ghost predicate Repeated(body: string, marker: string) {
    exists o, o' :: o != o' && IsMark(body, marker, o) && IsMark(body, marker, o')
  }

  /** The only line that reads `marker`, if there is one; two are an error. */
  ghost function UniqueMarker(body: string, marker: string): Result<Option<MarkerLine>, Error> {
    if Repeated(body, marker) then Err(DuplicateMarker(marker))
    else if exists o :: IsMark(body, marker, o) then var o :| IsMark(body, marker, o); Ok(Some(o))
    else Ok(None)
  }

  lemma UniqueMarkerMeans(body: string, marker: string)
    ensures var r := UniqueMarker(body, marker);
            && (r == Ok(None) <==> !HasLine(body, marker))
            && (r.Ok? && r.value.Some? ==>
                  IsMark(body, marker, r.value.value) && forall o :: IsMark(body, marker, o) ==> o == r.value.value)
            && (r.Err? ==> r.error == DuplicateMarker(marker) && Repeated(body, marker))
  {
    MarksAreLines(body, marker);
  }

  lemma UniqueMarkerIs(body: string, marker: string, o: MarkerLine)
    requires IsMark(body, marker, o) && forall o' :: IsMark(body, marker, o') ==> o' == o
    ensures UniqueMarker(body, marker) == Ok(Some(o))
  {
    assert HasLine(body, marker);
    UniqueMarkerMeans(body, marker);
  }

  lemma TwoMarks(body: string, marker: string, o: MarkerLine, o': MarkerLine)
    requires o != o' && IsMark(body, marker, o) && IsMark(body, marker, o')
    ensures UniqueMarker(body, marker) == Err(DuplicateMarker(marker))
  {
    assert HasLine(body, marker);
    UniqueMarkerMeans(body, marker);
  }

  /** No line starts strictly inside another. */
  lemma NoStartInside(body: string, i: nat, j: nat)
    requires i < |body| && LineStart(body, j) && i < j
    ensures LineEnd(body, i) <= j
  {
    LineEndIs(body, i, LineEnd(body, i));
  }

  lemma NoMarkInside(body: string, marker: string, i: nat)
    requires i < |body|
    ensures forall o :: IsMark(body, marker, o) && i < o.lineStart ==> LineEnd(body, i) <= o.lineStart
  {
    forall o | IsMark(body, marker, o) && i < o.lineStart
      ensures LineEnd(body, i) <= o.lineStart
    {
      NoStartInside(body, i, o.lineStart);
    }
  }

  /** One pass over the lines, stopping at the second hit. */
  method FindUniqueMarker(body: string, marker: string) returns (r: Result<Option<MarkerLine>, Error>)
    ensures r == UniqueMarker(body, marker)
  {
    var found: Option<MarkerLine> := None;
    var lineStart := 0;
    while lineStart < |body|
      invariant lineStart <= |body| && (lineStart < |body| ==> LineStart(body, lineStart))
      invariant found.Some? ==> IsMark(body, marker, found.value) && found.value.lineStart < lineStart
      invariant forall o :: IsMark(body, marker, o) && o.lineStart < lineStart ==> found == Some(o)
    {
      var end := LineEnd(body, lineStart);
      LineEndIs(body, lineStart, end);
      NoMarkInside(body, marker, lineStart);
      if Line(body[lineStart..end]) == marker {
        assert IsMark(body, marker, MarkerLine(lineStart, end));
        if found.Some? {
          TwoMarks(body, marker, found.value, MarkerLine(lineStart, end));
          return Err(DuplicateMarker(marker));
        }
        found := Some(MarkerLine(lineStart, end));
      }
      lineStart := end;
    }
    if found.Some? {
      UniqueMarkerIs(body, marker, found.value);
    } else {
      MarksAreLines(body, marker);
      UniqueMarkerMeans(body, marker);
    }
    return Ok(found);
  }

  function Required(found: Result<Option<MarkerLine>, Error>, marker: string): Result<MarkerLine, Error> {
    match found
    case Err(e) => Err(e)
    case Ok(None) => Err(MissingMarker(marker))
    case Ok(Some(o)) => Ok(o)
  }

  function EnsureOrder(start: MarkerLine, end: MarkerLine, startName: string, endName: string): Result<(), Error> {
    if start.afterLine > end.lineStart then Err(InvalidMarkerOrder(startName, endName)) else Ok(())
  }

  function PairQuote(k: Schema, start: Option<MarkerLine>, end: Option<MarkerLine>, composeEnd: MarkerLine): Result<Option<Quote>, Error> {
    match (start, end)
    case (None, None) => Ok(None)
    case (None, Some(_)) => Err(MissingMarker(k.quoteStart))
    case (Some(_), None) => Err(MissingMarker(k.quoteEnd))
    case (Some(s), Some(e)) =>
      if EnsureOrder(s, e, k.quoteStart, k.quoteEnd).Err? then Err(InvalidMarkerOrder(k.quoteStart, k.quoteEnd))
      else if s.lineStart < composeEnd.afterLine then Err(QuoteBeforeComposeEnd)
      else Ok(Some(Quote(s, e)))
  }

  function FindQuote(k: Schema, start: Result<Option<MarkerLine>, Error>, end: Result<Option<MarkerLine>, Error>, composeEnd: MarkerLine)
    : Result<Option<Quote>, Error>
  {
    match start
    case Err(e) => Err(e)
    case Ok(s) =>
      match end
      case Err(e) => Err(e)
      case Ok(e) => PairQuote(k, s, e, composeEnd)
  }

  /** A body with what the searches for the four markers found in it, in the order of the
      schema. */
  function Assembled(k: Schema, body: string,
                     composeStart: Result<Option<MarkerLine>, Error>, composeEnd: Result<Option<MarkerLine>, Error>,
                     quoteStart: Result<Option<MarkerLine>, Error>, quoteEnd: Result<Option<MarkerLine>, Error>): Result<Draft, Error>
  {
    match Required(composeStart, k.composeStart)
    case Err(e) => Err(e)
    case Ok(start) =>
      match Required(composeEnd, k.composeEnd)
      case Err(e) => Err(e)
      case Ok(end) =>
        match EnsureOrder(start, end, k.composeStart, k.composeEnd)
        case Err(e) => Err(e)
        case Ok(_) =>
          match FindQuote(k, quoteStart, quoteEnd, end)
          case Err(e) => Err(e)
          case Ok(quote) => Ok(Draft(body, start, end, quote))
  }

  ghost function ParseDraft(k: Schema, body: string): Result<Draft, Error> {
    Assembled(k, body, UniqueMarker(body, k.composeStart), UniqueMarker(body, k.composeEnd),
              UniqueMarker(body, k.quoteStart), UniqueMarker(body, k.quoteEnd))
  }

  method ParseDraftContent(k: Schema, body: string) returns (r: Result<Draft, Error>)
    ensures r == ParseDraft(k, body)
  {
    var start := FindUniqueMarker(body, k.composeStart);
    if start.Err? { return Err(start.error); }
    if start.value.None? { return Err(MissingMarker(k.composeStart)); }
    var end := FindUniqueMarker(body, k.composeEnd);
    if end.Err? { return Err(end.error); }
    if end.value.None? { return Err(MissingMarker(k.composeEnd)); }
    var order := EnsureOrder(start.value.value, end.value.value, k.composeStart, k.composeEnd);
    if order.Err? { return Err(order.error); }
    var quoteStart := FindUniqueMarker(body, k.quoteStart);
    if quoteStart.Err? { return Err(quoteStart.error); }
    var quoteEnd := FindUniqueMarker(body, k.quoteEnd);
    if quoteEnd.Err? { return Err(quoteEnd.error); }
    var quote := PairQuote(k, quoteStart.value, quoteEnd.value, end.value.value);
    if quote.Err? { return Err(quote.error); }
    return Ok(Draft(body, start.value.value, end.value.value, quote.value));
  }

  // ----- what an error means -----

  type Search = Result<Option<MarkerLine>, Error>

  ghost predicate Found(r: Search) { r.Ok? && r.value.Some? }

  /** Both are found, and the second starts before the line of the first has ended. */
  ghost predicate Crossed(r: Search, s: Search) {
    Found(r) && Found(s) && s.value.value.lineStart < r.value.value.afterLine
  }

  /** Which error a body has, told by the four searches: the compose markers come first, then
      the quote's. */
  ghost predicate Fails(k: Schema, start: Search, end: Search, quoteStart: Search, quoteEnd: Search, e: Error) {
    var compose := Found(start) && Found(end) && !Crossed(start, end);
    match e
    case DuplicateMarker(marker) =>
      || (marker == k.composeStart && start.Err?) || (marker == k.composeEnd && end.Err? && Found(start))
      || (marker == k.quoteStart && quoteStart.Err? && compose) || (marker == k.quoteEnd && quoteEnd.Err? && quoteStart.Ok? && compose)
    case MissingMarker(marker) =>
      || (marker == k.composeStart && start == Ok(None)) || (marker == k.composeEnd && end == Ok(None) && Found(start))
      || (marker == k.quoteStart && quoteStart == Ok(None) && Found(quoteEnd) && compose)
      || (marker == k.quoteEnd && quoteEnd == Ok(None) && Found(quoteStart) && compose)
    case InvalidMarkerOrder(first, second) =>
      || (first == k.composeStart && second == k.composeEnd && Crossed(start, end))
      || (first == k.quoteStart && second == k.quoteEnd && Crossed(quoteStart, quoteEnd) && compose)
    case QuoteBeforeComposeEnd =>
      Crossed(end, quoteStart) && Found(quoteEnd) && !Crossed(quoteStart, quoteEnd) && compose
  }

  ghost predicate Named(r: Search, marker: string) { r.Err? ==> r.error == DuplicateMarker(marker) }

  lemma AssembledFails(k: Schema, body: string, start: Search, end: Search, quoteStart: Search, quoteEnd: Search, e: Error)
    requires k.Valid()
    requires Named(start, k.composeStart) && Named(end, k.composeEnd) && Named(quoteStart, k.quoteStart) && Named(quoteEnd, k.quoteEnd)
    ensures Assembled(k, body, start, end, quoteStart, quoteEnd) == Err(e) <==> Fails(k, start, end, quoteStart, quoteEnd, e)
  {
  }

  /** A body has an error exactly when its searches say so: the reported one is true, and the
      first in the order of the checks. */
  lemma ErrorIs(k: Schema, body: string, e: Error)
    requires k.Valid()
    ensures ParseDraft(k, body) == Err(e)
            <==> Fails(k, UniqueMarker(body, k.composeStart), UniqueMarker(body, k.composeEnd),
                       UniqueMarker(body, k.quoteStart), UniqueMarker(body, k.quoteEnd), e)
  {
    UniqueMarkerMeans(body, k.composeStart);
    UniqueMarkerMeans(body, k.composeEnd);
    UniqueMarkerMeans(body, k.quoteStart);
    UniqueMarkerMeans(body, k.quoteEnd);
    AssembledFails(k, body, UniqueMarker(body, k.composeStart), UniqueMarker(body, k.composeEnd),
                   UniqueMarker(body, k.quoteStart), UniqueMarker(body, k.quoteEnd), e);
  }

  // ----- a body cut at the compose section -----

  ghost predicate Parsed(k: Schema, d: Draft) { ParseDraft(k, d.body) == Ok(d) }

  function QuoteStart(d: Draft): Option<MarkerLine> {
    if d.quote.Some? then Some(d.quote.value.start) else None
  }

  function QuoteEnd(d: Draft): Option<MarkerLine> {
    if d.quote.Some? then Some(d.quote.value.end) else None
  }

  /** The markers stand in order. */
  ghost predicate InOrder(d: Draft) {
    && d.composeStart.afterLine <= d.composeEnd.lineStart
    && (d.quote.Some? ==>
          && d.composeEnd.afterLine <= d.quote.value.start.lineStart
          && d.quote.value.start.afterLine <= d.quote.value.end.lineStart)
  }

  lemma AssembledIs(k: Schema, d: Draft,
                    composeStart: Result<Option<MarkerLine>, Error>, composeEnd: Result<Option<MarkerLine>, Error>,
                    quoteStart: Result<Option<MarkerLine>, Error>, quoteEnd: Result<Option<MarkerLine>, Error>)
    ensures Assembled(k, d.body, composeStart, composeEnd, quoteStart, quoteEnd) == Ok(d) <==>
            && composeStart == Ok(Some(d.composeStart)) && composeEnd == Ok(Some(d.composeEnd))
            && quoteStart == Ok(QuoteStart(d)) && quoteEnd == Ok(QuoteEnd(d)) && InOrder(d)
  {
  }

  /** A draft is what its four marker searches found, in order. */
  lemma DraftIsItsMarks(k: Schema, d: Draft)
    ensures Parsed(k, d) <==>
            && UniqueMarker(d.body, k.composeStart) == Ok(Some(d.composeStart))
            && UniqueMarker(d.body, k.composeEnd) == Ok(Some(d.composeEnd))
            && UniqueMarker(d.body, k.quoteStart) == Ok(QuoteStart(d))
            && UniqueMarker(d.body, k.quoteEnd) == Ok(QuoteEnd(d))
            && InOrder(d)
  {
    AssembledIs(k, d, UniqueMarker(d.body, k.composeStart), UniqueMarker(d.body, k.composeEnd),
                UniqueMarker(d.body, k.quoteStart), UniqueMarker(d.body, k.quoteEnd));
  }

  lemma UniqueMarkIs(body: string, marker: string, o: MarkerLine)
    requires UniqueMarker(body, marker) == Ok(Some(o))
    ensures IsMark(body, marker, o) && o.lineStart < o.afterLine <= |body|
  {
    UniqueMarkerMeans(body, marker);
  }

  lemma Inside(k: Schema, d: Draft)
    requires Parsed(k, d)
    ensures IsMark(d.body, k.composeStart, d.composeStart) && IsMark(d.body, k.composeEnd, d.composeEnd)
    ensures 0 < d.composeStart.afterLine <= d.composeEnd.lineStart < d.composeEnd.afterLine <= |d.body|
    ensures d.quote.Some? ==>
              && IsMark(d.body, k.quoteStart, d.quote.value.start) && IsMark(d.body, k.quoteEnd, d.quote.value.end)
              && d.composeEnd.afterLine <= d.quote.value.start.lineStart < d.quote.value.start.afterLine
              && d.quote.value.start.afterLine <= d.quote.value.end.lineStart
  {
    DraftIsItsMarks(k, d);
    UniqueMarkIs(d.body, k.composeStart, d.composeStart);
    UniqueMarkIs(d.body, k.composeEnd, d.composeEnd);
    if d.quote.Some? {
      UniqueMarkIs(d.body, k.quoteStart, d.quote.value.start);
      UniqueMarkIs(d.body, k.quoteEnd, d.quote.value.end);
    }
  }

  /** Everything up to and including the compose start line. */
  ghost function Before(k: Schema, d: Draft): string
    requires Parsed(k, d)
  {
    Inside(k, d);
    d.body[..d.composeStart.afterLine]
  }

  /** The compose section. */
  ghost function Compose(k: Schema, d: Draft): string
    requires Parsed(k, d)
  {
    Inside(k, d);
    d.body[d.composeStart.afterLine..d.composeEnd.lineStart]
  }

  /** Everything from the compose end line on. */
  ghost function After(k: Schema, d: Draft): string
    requires Parsed(k, d)
  {
    Inside(k, d);
    d.body[d.composeEnd.lineStart..]
  }

  lemma CutInThree(s: string, i: nat, j: nat)
    requires i <= j <= |s|
    ensures s == s[..i] + s[i..j] + s[j..]
  {
  }

  /** A mark is surrounded by line boundaries. */
  lemma MarkIsWholeLine(body: string, marker: string, o: MarkerLine)
    requires IsMark(body, marker, o)
    ensures o.afterLine <= |body| && (o.afterLine < |body| ==> body[o.afterLine - 1] == '\n')
    ensures 0 < o.lineStart ==> body[o.lineStart - 1] == '\n'
  {
    LineEndIs(body, o.lineStart, o.afterLine);
  }

  lemma CutIsWholeLines(s: string, i: nat, j: nat)
    requires 0 < i <= j <= |s| && s[i - 1] == '\n' && s[j - 1] == '\n'
    ensures WholeLines(s[..i]) && WholeLines(s[i..j])
  {
  }

  lemma PartsAreWholeLines(k: Schema, d: Draft)
    requires Parsed(k, d)
    ensures d.body == Before(k, d) + Compose(k, d) + After(k, d)
    ensures |Before(k, d)| == d.composeStart.afterLine && |Before(k, d)| + |Compose(k, d)| == d.composeEnd.lineStart
    ensures WholeLines(Before(k, d)) && WholeLines(Compose(k, d))
  {
    Inside(k, d);
    MarkIsWholeLine(d.body, k.composeStart, d.composeStart);
    MarkIsWholeLine(d.body, k.composeEnd, d.composeEnd);
    CutInThree(d.body, d.composeStart.afterLine, d.composeEnd.lineStart);
    CutIsWholeLines(d.body, d.composeStart.afterLine, d.composeEnd.lineStart);
  }

  function Shift(o: MarkerLine, delta: int): MarkerLine
    requires o.lineStart + delta >= 0 && o.afterLine + delta >= 0
  {
    MarkerLine(o.lineStart + delta, o.afterLine + delta)
  }

  /** The marks of a text in two whole-line parts. */
  lemma MarkOfAppend(a: string, b: string, marker: string, o: MarkerLine)
    requires WholeLines(a)
    ensures IsMark(a + b, marker, o)
            <==> if o.lineStart < |a| then IsMark(a, marker, o)
                 else o.afterLine >= |a| && IsMark(b, marker, Shift(o, -|a|))
  {
    if o.lineStart < |a| {
      LineInFirst(a, b, o.lineStart);
    } else if o.lineStart < |a + b| {
      LineInSecond(a, b, o.lineStart - |a|);
    }
  }

  /** Where a mark of a text in three whole-line parts lies. */
  lemma MarkOfThree(pre: string, mid: string, suf: string, marker: string, o: MarkerLine)
    requires WholeLines(pre) && WholeLines(mid)
    ensures IsMark(pre + mid + suf, marker, o)
            <==> if o.lineStart < |pre| then IsMark(pre, marker, o)
                 else if o.lineStart < |pre| + |mid| then o.afterLine >= |pre| && IsMark(mid, marker, Shift(o, -|pre|))
                 else o.afterLine >= |pre| + |mid| && IsMark(suf, marker, Shift(o, -(|pre| + |mid|)))
  {
    MarkOfAppend(pre + mid, suf, marker, o);
    MarkOfAppend(pre, mid, marker, o);
  }

  /** A marker absent from the middle part is found at the same line when the middle part is
      exchanged. */
  lemma MarkMoves(pre: string, mid: string, mid': string, suf: string, marker: string, o: MarkerLine)
    requires WholeLines(pre) && WholeLines(mid) && WholeLines(mid')
    requires !HasLine(mid, marker) && IsMark(pre + mid + suf, marker, o)
    ensures o.lineStart < |pre| || |pre| + |mid| <= o.lineStart < o.afterLine
    ensures IsMark(pre + mid' + suf, marker, if o.lineStart < |pre| then o else Shift(o, |mid'| - |mid|))
  {
    MarksAreLines(mid, marker);
    MarkOfThree(pre, mid, suf, marker, o);
    var o' := if o.lineStart < |pre| then o else Shift(o, |mid'| - |mid|);
    MarkOfThree(pre, mid', suf, marker, o');
  }

  /** A marker line in the middle part is a mark of the whole. */
  lemma MarkInMiddle(pre: string, mid: string, suf: string, marker: string) returns (o: MarkerLine)
    requires WholeLines(pre) && WholeLines(mid) && HasLine(mid, marker)
    ensures IsMark(pre + mid + suf, marker, o)
    ensures |pre| <= o.lineStart < o.afterLine <= |pre| + |mid|
  {
    var i: nat :| LineStart(mid, i) && LineAt(mid, i) == marker;
    o := Shift(MarkerLine(i, LineEnd(mid, i)), |pre|);
    MarkOfThree(pre, mid, suf, marker, o);
  }

  /** Exchanging the middle part keeps what a marker search finds. */
  lemma SearchMoves(pre: string, mid: string, mid': string, suf: string, marker: string)
    requires WholeLines(pre) && WholeLines(mid) && WholeLines(mid')
    requires !HasLine(mid, marker) && !HasLine(mid', marker)
    ensures var r, r' := UniqueMarker(pre + mid + suf, marker), UniqueMarker(pre + mid' + suf, marker);
            match r
            case Ok(None) => r' == Ok(None)
            case Ok(Some(o)) =>
              && (o.lineStart < |pre| || |pre| + |mid| <= o.lineStart < o.afterLine)
              && r' == Ok(Some(if o.lineStart < |pre| then o else Shift(o, |mid'| - |mid|)))
            case Err(_) => true
  {
    UniqueMarkerMeans(pre + mid + suf, marker);
    match UniqueMarker(pre + mid + suf, marker)
    case Ok(None) => AbsenceStays(pre, mid, mid', suf, marker);
    case Ok(Some(o)) => OnlyMarkMoves(pre, mid, mid', suf, marker, o);
    case Err(_) =>
  }

  lemma AbsenceStays(pre: string, mid: string, mid': string, suf: string, marker: string)
    requires WholeLines(pre) && WholeLines(mid) && WholeLines(mid')
    requires !HasLine(mid', marker) && !HasLine(pre + mid + suf, marker)
    ensures UniqueMarker(pre + mid' + suf, marker) == Ok(None)
  {
    HasLineAppend(pre + mid, suf, marker);
    HasLineAppend(pre, mid, marker);
    HasLineAppend(pre + mid', suf, marker);
    HasLineAppend(pre, mid', marker);
    UniqueMarkerMeans(pre + mid' + suf, marker);
  }

  lemma OnlyMarkMoves(pre: string, mid: string, mid': string, suf: string, marker: string, o: MarkerLine)
    requires WholeLines(pre) && WholeLines(mid) && WholeLines(mid') && !HasLine(mid, marker) && !HasLine(mid', marker)
    requires IsMark(pre + mid + suf, marker, o) && forall x :: IsMark(pre + mid + suf, marker, x) ==> x == o
    ensures o.lineStart < |pre| || |pre| + |mid| <= o.lineStart < o.afterLine
    ensures UniqueMarker(pre + mid' + suf, marker)
            == Ok(Some(if o.lineStart < |pre| then o else Shift(o, |mid'| - |mid|)))
  {
    MarkMoves(pre, mid, mid', suf, marker, o);
    var moved := if o.lineStart < |pre| then o else Shift(o, |mid'| - |mid|);
    forall o' | IsMark(pre + mid' + suf, marker, o')
      ensures o' == moved
    {
      MarkMoves(pre, mid', mid, suf, marker, o');
    }
    UniqueMarkerIs(pre + mid' + suf, marker, moved);
  }

  /** A single mark outside the middle part leaves the middle part without that line. */
  lemma MarkElsewhere(pre: string, mid: string, suf: string, marker: string, found: Option<MarkerLine>)
    requires WholeLines(pre) && WholeLines(mid) && UniqueMarker(pre + mid + suf, marker) == Ok(found)
    requires found.Some? ==> found.value.lineStart < |pre| || |pre| + |mid| <= found.value.lineStart
    ensures !HasLine(mid, marker)
  {
    if HasLine(mid, marker) {
      UniqueMarkerMeans(pre + mid + suf, marker);
      var o := MarkInMiddle(pre, mid, suf, marker);
      MarksAreLines(pre + mid + suf, marker);
    }
  }

  /** In a draft the compose section contains no marker line. */
  lemma ComposeHasNoMarker(k: Schema, d: Draft)
    requires Parsed(k, d)
    ensures !HasMarkerLine(k, Compose(k, d))
  {
    PartsAreWholeLines(k, d);
    Inside(k, d);
    DraftIsItsMarks(k, d);
    NoMarkerInMiddle(k, d, Before(k, d), Compose(k, d), After(k, d));
  }

  lemma NoMarkerInMiddle(k: Schema, d: Draft, pre: string, mid: string, suf: string)
    requires WholeLines(pre) && WholeLines(mid) && d.body == pre + mid + suf
    requires d.composeStart.lineStart < |pre| && |pre| + |mid| <= d.composeEnd.lineStart
    requires d.quote.Some? ==>
               && |pre| + |mid| <= d.quote.value.start.lineStart && |pre| + |mid| <= d.quote.value.end.lineStart
    requires UniqueMarker(d.body, k.composeStart) == Ok(Some(d.composeStart))
    requires UniqueMarker(d.body, k.composeEnd) == Ok(Some(d.composeEnd))
    requires UniqueMarker(d.body, k.quoteStart) == Ok(QuoteStart(d))
    requires UniqueMarker(d.body, k.quoteEnd) == Ok(QuoteEnd(d))
    ensures !HasMarkerLine(k, mid)
  {
    MarkElsewhere(pre, mid, suf, k.composeStart, Some(d.composeStart));
    MarkElsewhere(pre, mid, suf, k.composeEnd, Some(d.composeEnd));
    MarkElsewhere(pre, mid, suf, k.quoteStart, QuoteStart(d));
    MarkElsewhere(pre, mid, suf, k.quoteEnd, QuoteEnd(d));
  }

  /** Nothing else in a draft reads like its compose markers. */
  lemma OnlyComposeMarks(k: Schema, d: Draft, start: MarkerLine, end: MarkerLine)
    requires Parsed(k, d) && IsMark(d.body, k.composeStart, start) && IsMark(d.body, k.composeEnd, end)
    ensures start == d.composeStart && end == d.composeEnd
  {
    DraftIsItsMarks(k, d);
    UniqueMarkerMeans(d.body, k.composeStart);
    UniqueMarkerMeans(d.body, k.composeEnd);
  }
}
