/** What the page of any events means, told without the step-by-step reading: no text is lost,
    marks are open while more of them started than ended, a link belongs to its outermost
    target, list items count, and elements become blocks of their kind. */
module BlockLaws {
  import opened Wrappers
  import opened Text
  import opened BlockBuilder

  lemma OneMoreEvent(c: LinkContext, events: seq<Event>, e: Event)
    ensures After(events + [e]) == Step(After(events), e)
    ensures PageAfter(c, events + [e]) == Show(c, After(events), PageAfter(c, events), e)
  {
    assert (events + [e])[..|events|] == events;
  }

  // ----- no text is lost -----

  /** The characters on a line, rules left out. */
  function Letters(glyphs: seq<Glyph>): string {
    if glyphs == [] then "" else
      var n := |glyphs| - 1;
      Letters(glyphs[..n]) + (if glyphs[n].Glyph? then [glyphs[n].c] else "")
  }

  function AllLetters(lines: seq<seq<Glyph>>): string {
    if lines == [] then "" else AllLetters(lines[..|lines| - 1]) + Letters(lines[|lines| - 1])
  }

  function PageText(p: Page): string { AllLetters(p.done) + Letters(p.open) }

  /** The texts of all events, one after another. */
  function AllText(events: seq<Event>): string {
    if events == [] then "" else AllText(events[..|events| - 1]) + EventText(events[|events| - 1])
  }

  lemma {:induction false} LettersAppend(a: seq<Glyph>, b: seq<Glyph>)
    ensures Letters(a + b) == Letters(a) + Letters(b)
    decreases |b|
  {
    if b == [] {
      assert a + b == a;
    } else {
      var n := |b| - 1;
      assert (a + b)[..|a + b| - 1] == a + b[..n] && (a + b)[|a + b| - 1] == b[n];
      LettersAppend(a, b[..n]);
      Assoc(Letters(a), Letters(b[..n]), if b[n].Glyph? then [b[n].c] else "");
    }
  }

  lemma {:induction false} SealedLetters(g: seq<Glyph>, k: nat, seal: Seal)
    requires k < |g| && g[k].Glyph?
    ensures Letters(g[k := g[k].(seal := seal)]) == Letters(g)
    decreases |g|
  {
    var n := |g| - 1;
    var h := g[k := g[k].(seal := seal)];
    if k < n {
      assert h[..n] == g[..n][k := g[k].(seal := seal)];
      SealedLetters(g[..n], k, seal);
    } else {
      assert h[..n] == g[..n];
    }
  }

  lemma {:induction false} PaintedLetters(text: string, style: Style, place: Place, seal: Seal)
    ensures Letters(Paint(text, style, place, seal)) == text
    decreases |text|
  {
    if text != "" {
      var n := |text| - 1;
      var g := Paint(text, style, place, seal);
      var shorter := Paint(text[..n], style, place, NO_SEAL);
      PaintedLetters(text[..n], style, place, NO_SEAL);
      assert g[..n] == shorter;
      assert text == text[..n] + [text[n]];
    }
  }

  lemma MoreLetters(open: seq<Glyph>, text: string, style: Style, place: Place)
    ensures Letters(More(open, text, style, place)) == Letters(open) + text
  {
    var n := |open| - 1;
    if text == "" {
      Assoc(Letters(open), "", "");
    } else if n >= 0 && open[n].Glyph? && open[n].style == style {
      SealedLetters(open, n, NO_SEAL);
      LettersAppend(open[n := open[n].(seal := NO_SEAL)], Paint(text, style, place, open[n].seal));
      PaintedLetters(text, style, place, open[n].seal);
    } else {
      LettersAppend(open, Paint(text, style, place, NO_SEAL));
      PaintedLetters(text, style, place, NO_SEAL);
    }
  }

  lemma OneMoreGlyph(a: seq<Glyph>, g: Glyph)
    ensures Letters(a + [g]) == Letters(a) + if g.Glyph? then [g.c] else ""
  {
    assert (a + [g])[..|a|] == a;
  }

  lemma {:induction false} SealLastLetters(open: seq<Glyph>, target: string, seal: Seal)
    ensures Letters(SealLast(open, target, seal)) == Letters(open)
    decreases |open|
  {
    if open != [] {
      var n := |open| - 1;
      if open[n].Glyph? && open[n].style.href == Some(target) {
        SealedLetters(open, n, seal);
      } else {
        SealLastLetters(open[..n], target, seal);
        OneMoreGlyph(SealLast(open[..n], target, seal), open[n]);
      }
    }
  }

  lemma OneMoreLine(lines: seq<seq<Glyph>>, line: seq<Glyph>)
    ensures AllLetters(lines + [line]) == AllLetters(lines) + Letters(line)
  {
    assert (lines + [line])[..|lines|] == lines;
  }

  lemma TurnedText(p: Page)
    ensures PageText(Turn(p)) == PageText(p) && AllLetters(Turn(p).done) == PageText(p)
  {
    Assoc(AllLetters(p.done), "", "");
    if p.open != [] {
      OneMoreLine(p.done, p.open);
      Assoc(PageText(p), "", "");
    }
  }

  lemma ShownText(r: Reading, p: Page, text: string, code: bool)
    ensures PageText(ShowText(r, p, text, code)) == PageText(p) + text
  {
    MoreLetters(p.open, text, StyleIn(r, code), Landing(r).place.value);
    Assoc(AllLetters(p.done), Letters(p.open), text);
  }

  lemma StartIsShown(c: LinkContext, r: Reading, p: Page, tag: Tag)
    ensures PageText(Show(c, r, p, Start(tag))) == PageText(p) + EventText(Start(tag))
  {
    TurnedText(p);
    Assoc(PageText(p), "", "");
    ShownText(r, p, EventText(Start(tag)), false);
  }

  lemma EndIsShown(c: LinkContext, r: Reading, p: Page, end: TagEnd)
    ensures PageText(Show(c, r, p, End(end))) == PageText(p)
  {
    TurnedText(p);
    if end.LinkEnd? && r.links <= 1 && r.href.Some? { SealLastLetters(p.open, r.href.value, SealOf(c, r.href.value)); }
  }

  lemma RuleIsShown(c: LinkContext, r: Reading, p: Page)
    ensures PageText(Show(c, r, p, RuleEvent)) == PageText(p)
  {
    TurnedText(p);
    OneMoreLine(Turn(p).done, [RuleLine]);
    assert [RuleLine][..0] == [];
    Assoc(PageText(p), "", "");
  }

  lemma TextIsShown(c: LinkContext, r: Reading, p: Page, e: Event)
    requires !e.Start? && !e.End? && !e.RuleEvent?
    ensures PageText(Show(c, r, p, e)) == PageText(p) + EventText(e)
  {
    ShownText(r, p, EventText(e), e.CodeEvent?);
  }

  lemma EventIsShown(c: LinkContext, r: Reading, p: Page, e: Event)
    ensures PageText(Show(c, r, p, e)) == PageText(p) + EventText(e)
  {
    Assoc(PageText(p), "", "");
    match e
    case Start(tag) => StartIsShown(c, r, p, tag);
    case End(end) => EndIsShown(c, r, p, end);
    case RuleEvent => RuleIsShown(c, r, p);
    case _ => TextIsShown(c, r, p, e);
  }

  /** The blocks hold the text of all events, in order: nothing is lost, doubled or made up. */
  lemma {:induction false} TextIsConserved(c: LinkContext, events: seq<Event>)
    ensures AllLetters(Turn(PageAfter(c, events)).done) == AllText(events)
    ensures PageText(PageAfter(c, events)) == AllText(events)
    decreases |events|
  {
    if events != [] {
      var n := |events| - 1;
      TextIsConserved(c, events[..n]);
      EventIsShown(c, After(events[..n]), PageAfter(c, events[..n]), events[n]);
    }
    TurnedText(PageAfter(c, events));
  }

  /** Where that text comes from: breaks, task markers, table cells, and the events' own. */
  lemma TextOfEvents(t: string)
    ensures EventText(SoftBreak) == " " && EventText(HardBreak) == "\n" && EventText(Start(TableCellTag)) == " "
    ensures EventText(TaskListMarker(true)) == "\U{2611} " && EventText(TaskListMarker(false)) == "\U{2610} "
    ensures forall e :: e in {TextEvent(t), CodeEvent(t), Html(t), InlineHtml(t), FootnoteReference(t), InlineMath(t), DisplayMath(t)}
              ==> EventText(e) == t
  {
  }

  // ----- what is open -----

  /** How one event moves a counter. */
  function Moved(up: Event -> bool, down: Event -> bool, e: Event, before: nat): nat {
    if up(e) then before + 1 else if down(e) then Less(before) else before
  }

  /** A counter that one kind of event raises and another lowers, but not below zero. */
  function Depth(up: Event -> bool, down: Event -> bool, events: seq<Event>): nat {
    if events == [] then 0 else
      Moved(up, down, events[|events| - 1], Depth(up, down, events[..|events| - 1]))
  }

  /** How many more events of the first kind than of the second. */
  function Balance(up: Event -> bool, down: Event -> bool, events: seq<Event>): int {
    if events == [] then 0 else
      var e, before := events[|events| - 1], Balance(up, down, events[..|events| - 1]);
      if up(e) then before + 1 else if down(e) then before - 1 else before
  }

  lemma LastOf(events: seq<Event>, i: nat)
    requires i < |events|
    ensures events[i..][..|events[i..]| - 1] == events[..|events| - 1][i..] && events[i..][|events[i..]| - 1] == events[|events| - 1]
  {
  }

  /** The depth is the largest balance of any last stretch of the events. */
  lemma {:induction false} DepthIsBalance(up: Event -> bool, down: Event -> bool, events: seq<Event>, i: nat)
    requires i <= |events|
    ensures Depth(up, down, events) >= Balance(up, down, events[i..])
    decreases |events|
  {
    if i < |events| {
      LastOf(events, i);
      DepthIsBalance(up, down, events[..|events| - 1], i);
    }
  }

  lemma {:induction false} DepthIsReached(up: Event -> bool, down: Event -> bool, events: seq<Event>) returns (i: nat)
    ensures i <= |events| && Depth(up, down, events) == Balance(up, down, events[i..])
    decreases |events|
  {
    i := |events|;
    if events != [] && Depth(up, down, events) > 0 {
      i := DepthIsReached(up, down, events[..|events| - 1]);
      LastOf(events, i);
    }
  }

  const STARTS_EMPHASIS: Event -> bool := (e: Event) => e == Start(EmphasisTag)
  const ENDS_EMPHASIS: Event -> bool := (e: Event) => e == End(EmphasisEnd)
  const STARTS_STRONG: Event -> bool := (e: Event) => e == Start(StrongTag)
  const ENDS_STRONG: Event -> bool := (e: Event) => e == End(StrongEnd)
  const STARTS_QUOTE: Event -> bool := (e: Event) => e == Start(BlockQuoteTag)
  const ENDS_QUOTE: Event -> bool := (e: Event) => e == End(BlockQuoteEnd)
  const STARTS_LINK: Event -> bool := (e: Event) => e.Start? && e.tag.LinkTag?
  const ENDS_LINK: Event -> bool := (e: Event) => e == End(LinkEnd)
  const STARTS_LIST: Event -> bool := (e: Event) => e.Start? && e.tag.ListTag?
  const ENDS_LIST: Event -> bool := (e: Event) => e == End(ListEnd)

  lemma StepMoves(r: Reading, e: Event)
    ensures var s := Step(r, e);
            && s.emphasis == Moved(STARTS_EMPHASIS, ENDS_EMPHASIS, e, r.emphasis)
            && s.strong == Moved(STARTS_STRONG, ENDS_STRONG, e, r.strong)
            && s.quotes == Moved(STARTS_QUOTE, ENDS_QUOTE, e, r.quotes)
            && s.links == Moved(STARTS_LINK, ENDS_LINK, e, r.links)
            && |s.lists| == Moved(STARTS_LIST, ENDS_LIST, e, |r.lists|)
  {
  }

  lemma {:induction false} DepthsAre(events: seq<Event>)
    ensures var r := After(events);
            && r.emphasis == Depth(STARTS_EMPHASIS, ENDS_EMPHASIS, events)
            && r.strong == Depth(STARTS_STRONG, ENDS_STRONG, events)
            && r.quotes == Depth(STARTS_QUOTE, ENDS_QUOTE, events)
            && r.links == Depth(STARTS_LINK, ENDS_LINK, events)
            && |r.lists| == Depth(STARTS_LIST, ENDS_LIST, events)
    decreases |events|
  {
    if events != [] {
      DepthsAre(events[..|events| - 1]);
      StepMoves(After(events[..|events| - 1]), events[|events| - 1]);
    }
  }

  /** More events of the one kind than of the other in some last stretch of the events. */
  ghost predicate IsOpen(up: Event -> bool, down: Event -> bool, events: seq<Event>) {
    exists i :: 0 <= i <= |events| && Balance(up, down, events[i..]) > 0
  }

  lemma DepthOpen(up: Event -> bool, down: Event -> bool, events: seq<Event>)
    ensures Depth(up, down, events) > 0 <==> IsOpen(up, down, events)
  {
    var i := DepthIsReached(up, down, events);
    if IsOpen(up, down, events) {
      var j :| 0 <= j <= |events| && Balance(up, down, events[j..]) > 0;
      DepthIsBalance(up, down, events, j);
    }
  }

  /** Text is emphasized, strong or quoted exactly while such an element is open, however the
      events nest and whatever unmatched ends they contain. */
  lemma MarksAreOpen(events: seq<Event>)
    ensures var style := StyleIn(After(events), false);
            && (style.emphasis <==> IsOpen(STARTS_EMPHASIS, ENDS_EMPHASIS, events))
            && (style.strong <==> IsOpen(STARTS_STRONG, ENDS_STRONG, events))
    ensures Opened(After(events), Paragraph, None).place
            == Some(Place(if IsOpen(STARTS_QUOTE, ENDS_QUOTE, events) then Quote else Paragraph, None))
  {
    DepthsAre(events);
    DepthOpen(STARTS_EMPHASIS, ENDS_EMPHASIS, events);
    DepthOpen(STARTS_STRONG, ENDS_STRONG, events);
    DepthOpen(STARTS_QUOTE, ENDS_QUOTE, events);
  }

  // ----- links -----

  /** The scheme stands in front, in any case. */
  ghost predicate StartsLike(s: string, scheme: string) {
    |scheme| <= |s| && forall i :: 0 <= i < |scheme| ==>
      s[i] == scheme[i] || ('a' <= scheme[i] <= 'z' && s[i] as int + 32 == scheme[i] as int)
  }

  lemma SchemeIs(s: string, scheme: string)
    requires forall i :: 0 <= i < |scheme| ==> !('A' <= scheme[i] <= 'Z')
    ensures scheme <= LowerAscii(s) <==> StartsLike(s, scheme)
  {
    if scheme <= LowerAscii(s) {
      assert forall i :: 0 <= i < |scheme| ==> scheme[i] == LowerAscii(s)[i];
    }
  }

  /** A link is kept exactly when its trimmed target starts with one of three schemes. */
  lemma SafeTargets(url: string)
    ensures var target := Trim(IsWhitespace, url);
            SafeLinkTarget(url) == if StartsLike(target, "https://") || StartsLike(target, "http://") || StartsLike(target, "mailto:")
                                   then Some(target) else None
  {
    SchemeIs(Trim(IsWhitespace, url), "https://");
    SchemeIs(Trim(IsWhitespace, url), "http://");
    SchemeIs(Trim(IsWhitespace, url), "mailto:");
  }

  /** The link started at `i` is the outermost one that is still open. */
  ghost predicate OutermostAt(events: seq<Event>, i: nat) {
    && i < |events| && STARTS_LINK(events[i]) && After(events[..i]).links == 0
    && forall j :: i < j <= |events| ==> After(events[..j]).links > 0
  }

  lemma EarlierEvents(events: seq<Event>, j: nat)
    requires j < |events|
    ensures events[..|events| - 1][..j] == events[..j]
  {
  }

  lemma OutermostStays(events: seq<Event>, i: nat)
    requires events != [] && OutermostAt(events[..|events| - 1], i) && After(events).links > 0
    ensures OutermostAt(events, i)
  {
    var before := events[..|events| - 1];
    EarlierEvents(events, i);
    forall j | i < j <= |events|
      ensures After(events[..j]).links > 0
    {
      if j < |events| {
        EarlierEvents(events, j);
        assert After(before[..j]).links > 0;
      } else {
        assert events[..j] == events;
      }
    }
  }

  lemma LinkStep(r: Reading, e: Event)
    requires r.links == 0 ==> r.href == None
    ensures var s := Step(r, e);
            && (s.links == 0 ==> s.href == None)
            && (s.links > 0 && r.links > 0 ==> s.href == r.href)
            && (s.links > 0 && r.links == 0 ==> STARTS_LINK(e) && s.href == SafeLinkTarget(e.tag.dest))
  {
  }

  /** Where the text after these events leads: nowhere outside links, else to the target of the
      link started at `i`, if that is safe. */
  ghost predicate LeadsTo(events: seq<Event>, i: nat) {
    var r := After(events);
    && (r.links == 0 ==> r.href == None)
    && (r.links > 0 ==> OutermostAt(events, i) && r.href == SafeLinkTarget(events[i].tag.dest))
  }

  lemma LeadsOn(events: seq<Event>, i: nat) returns (j: nat)
    requires events != [] && LeadsTo(events[..|events| - 1], i)
    ensures LeadsTo(events, j)
  {
    var n := |events| - 1;
    j := i;
    LinkStep(After(events[..n]), events[n]);
    if After(events).links > 0 {
      if After(events[..n]).links > 0 {
        OutermostStays(events, i);
      } else {
        j := n;
        assert events[..n + 1] == events;
      }
    }
  }

  /** Text leads to the target of the outermost open link, whatever is started inside it. */
  lemma {:induction false} HrefIsOutermost(events: seq<Event>) returns (i: nat)
    ensures LeadsTo(events, i)
    decreases |events|
  {
    i := 0;
    if events != [] {
      i := HrefIsOutermost(events[..|events| - 1]);
      i := LeadsOn(events, i);
    }
  }

  lemma PaintEnds(text: string, style: Style, place: Place, from: Seal, seal: Seal)
    requires text != ""
    ensures var t, n := Paint(text, style, place, from), |text| - 1;
            t[n] == Glyph(text[n], style, place, from) && t[n := t[n].(seal := seal)] == Paint(text, style, place, seal)
  {
  }

  lemma SealEnd(a: seq<Glyph>, t: seq<Glyph>, target: string, seal: Seal)
    requires t != [] && t[|t| - 1].Glyph? && t[|t| - 1].style.href == Some(target)
    ensures SealLast(a + t, target, seal) == a + t[|t| - 1 := t[|t| - 1].(seal := seal)]
  {
    var n := |a + t| - 1;
    assert (a + t)[n] == t[|t| - 1];
  }

  /** More text is painted behind what was there. */
  lemma MorePaints(open: seq<Glyph>, text: string, style: Style, place: Place) returns (a: seq<Glyph>, from: Seal)
    requires text != ""
    ensures More(open, text, style, place) == a + Paint(text, style, place, from)
  {
    var n := |open| - 1;
    if n >= 0 && open[n].Glyph? && open[n].style == style {
      a, from := open[n := open[n].(seal := NO_SEAL)], open[n].seal;
    } else {
      a, from := open, NO_SEAL;
    }
  }

  lemma SealAtEnd(open: seq<Glyph>, text: string, style: Style, place: Place, target: string, seal: Seal)
    requires text != "" && style.href == Some(target)
    ensures var shown := SealLast(More(open, text, style, place), target, seal);
            |shown| >= |text| && shown[|shown| - |text|..] == Paint(text, style, place, seal)
  {
    var a, from := MorePaints(open, text, style, place);
    PaintEnds(text, style, place, from, seal);
    SealEnd(a, Paint(text, style, place, from), target, seal);
  }

  lemma LinkOpens(c: LinkContext, r: Reading, p: Page, dest: string)
    requires r.links == 0 && Safe(dest)
    ensures var s, q := Step(r, Start(LinkTag(dest))), Show(c, r, p, Start(LinkTag(dest)));
            && s == r.(links := 1, href := Some(dest)) && q == p
  {
    SafeLinkTargetIs(dest);
  }

  lemma TextKeepsMarks(r: Reading, text: string)
    ensures Step(r, TextEvent(text)).links == r.links && Step(r, TextEvent(text)).href == r.href
  {
  }

  lemma LinkCloses(c: LinkContext, r: Reading, p: Page, dest: string)
    requires r.links == 1 && r.href == Some(dest)
    ensures Show(c, r, p, End(LinkEnd)).open == SealLast(p.open, dest, SealOf(c, dest))
  {
  }

  lemma TextAppears(c: LinkContext, r: Reading, p: Page, text: string)
    ensures Show(c, r, p, TextEvent(text)).open == More(p.open, text, StyleIn(r, false), Landing(r).place.value)
  {
  }

  /** The host of a target, and whether it is the sender's. */
  ghost function Judgement(c: LinkContext, dest: string): Seal {
    var host := c.hostOf(dest);
    Seal(host, if host.Some? && c.senderDomain.Some? then Some(host == c.senderDomain) else None)
  }

  lemma LinkText(c: LinkContext, r: Reading, p: Page, dest: string, text: string)
    requires r.links == 1 && r.href == Some(dest) && text != ""
    ensures var open := Show(c, Step(r, TextEvent(text)), Show(c, r, p, TextEvent(text)), End(LinkEnd)).open;
            && |open| >= |text|
            && open[|open| - |text|..] == Paint(text, StyleIn(r, false), Landing(r).place.value, SealOf(c, dest))
  {
    TextKeepsMarks(r, text);
    TextAppears(c, r, p, text);
    SealAtEnd(p.open, text, StyleIn(r, false), Landing(r).place.value, dest, SealOf(c, dest));
    LinkCloses(c, Step(r, TextEvent(text)), Show(c, r, p, TextEvent(text)), dest);
  }

  /** The page after three more events. */
  ghost function ThreeMore(c: LinkContext, r: Reading, p: Page, e1: Event, e2: Event, e3: Event): Page {
    var r1, p1 := Step(r, e1), Show(c, r, p, e1);
    Show(c, Step(r1, e2), Show(c, r1, p1, e2), e3)
  }

  /** Wherever a link with text starts outside other links, it carries the judgement of its own
      target on its last character when it ends. */
  lemma LinkIsJudged(c: LinkContext, r: Reading, p: Page, dest: string, text: string)
    requires r.links == 0 && Safe(dest) && text != ""
    ensures var open := ThreeMore(c, r, p, Start(LinkTag(dest)), TextEvent(text), End(LinkEnd)).open;
            && |open| >= |text|
            && open[|open| - |text|..]
               == Paint(text, Style(Some(dest), r.emphasis > 0, r.strong > 0, false), Landing(r).place.value, Judgement(c, dest))
  {
    var linked := Step(r, Start(LinkTag(dest)));
    LinkOpens(c, r, p, dest);
    LinkText(c, linked, p, dest, text);
    assert Landing(linked).place == Landing(r).place;
  }

  // ----- lists -----

  function Value(digits: string): nat
    requires forall i :: 0 <= i < |digits| ==> '0' <= digits[i] <= '9'
  {
    if digits == "" then 0 else
      var n := |digits| - 1;
      10 * Value(digits[..n]) + (digits[n] as int - '0' as int)
  }

  /** A number is written with decimal digits and without leading zeros. */
  lemma {:induction false} DecimalIs(n: nat)
    ensures forall i :: 0 <= i < |Decimal(n)| ==> '0' <= Decimal(n)[i] <= '9'
    ensures Decimal(n) != "" && Value(Decimal(n)) == n && (Decimal(n)[0] == '0' ==> n == 0)
  {
    if n >= 10 {
      DecimalIs(n / 10);
      var d := Decimal(n);
      assert d[..|d| - 1] == Decimal(n / 10);
    } else {
      assert Decimal(n)[..0] == "";
    }
  }

  /** The events of a list's content: no end that closes the list itself. */
  ghost predicate Within(content: seq<Event>) {
    content == [] || (Within(content[..|content| - 1]) && Balance(STARTS_LIST, ENDS_LIST, content) >= 0)
  }

  /** The items of the list itself, not those of lists inside it. */
  function DirectItems(content: seq<Event>): nat {
    if content == [] then 0 else
      var n := |content| - 1;
      DirectItems(content[..n])
      + if content[n] == Start(ItemTag) && Balance(STARTS_LIST, ENDS_LIST, content[..n]) == 0 then 1 else 0
  }

  /** What the open lists are, seen from a list with this many counters around it. */
  ghost predicate InsideList(outer: seq<Option<nat>>, lists: seq<Option<nat>>, start: Option<nat>, items: nat, inner: int) {
    && inner >= 0 && |lists| == |outer| + 1 + inner && lists[..|outer|] == outer
    && lists[|outer|] == if start.Some? then Some(start.value + items) else None
  }

  lemma InsideStep(outer: seq<Option<nat>>, r: Reading, e: Event, start: Option<nat>, items: nat, inner: int)
    requires InsideList(outer, r.lists, start, items, inner)
    requires ENDS_LIST(e) ==> inner > 0
    ensures InsideList(outer, Step(r, e).lists, start, items + (if e == Start(ItemTag) && inner == 0 then 1 else 0),
                       if STARTS_LIST(e) then inner + 1 else if ENDS_LIST(e) then inner - 1 else inner)
  {
  }

  /** One more event of the content, for all three counts. */
  lemma ContentStep(before: seq<Event>, e: Event)
    ensures var content := before + [e];
            && (Within(content) ==> Within(before) && (ENDS_LIST(e) ==> Balance(STARTS_LIST, ENDS_LIST, before) > 0))
            && DirectItems(content)
               == DirectItems(before) + (if e == Start(ItemTag) && Balance(STARTS_LIST, ENDS_LIST, before) == 0 then 1 else 0)
            && Balance(STARTS_LIST, ENDS_LIST, content)
               == var b := Balance(STARTS_LIST, ENDS_LIST, before); if STARTS_LIST(e) then b + 1 else if ENDS_LIST(e) then b - 1 else b
  {
    assert (before + [e])[..|before|] == before;
  }

  lemma CountOneMore(outer: seq<Option<nat>>, r: Reading, s: Reading, start: Option<nat>, before: seq<Event>, e: Event)
    requires Within(before + [e]) && s == Step(r, e)
    requires InsideList(outer, r.lists, start, DirectItems(before), Balance(STARTS_LIST, ENDS_LIST, before))
    ensures InsideList(outer, s.lists, start, DirectItems(before + [e]), Balance(STARTS_LIST, ENDS_LIST, before + [e]))
  {
    ContentStep(before, e);
    InsideStep(outer, r, e, start, DirectItems(before), Balance(STARTS_LIST, ENDS_LIST, before));
  }

  /** A numbered list counts its own items from its start number on, whatever lists are nested
      in between. */
  lemma {:induction false} ItemsAreCounted(c: LinkContext, events: seq<Event>, start: Option<nat>, content: seq<Event>)
    requires Within(content)
    ensures InsideList(After(events).lists, After(events + [Start(ListTag(start))] + content).lists, start, DirectItems(content),
                       Balance(STARTS_LIST, ENDS_LIST, content))
    decreases |content|
  {
    var list := events + [Start(ListTag(start))];
    if content == [] {
      OneMoreEvent(c, events, Start(ListTag(start)));
      assert list + content == list;
    } else {
      var before, e := content[..|content| - 1], content[|content| - 1];
      assert content == before + [e] && list + content == list + before + [e];
      ItemsAreCounted(c, events, start, before);
      OneMoreEvent(c, list + before, e);
      CountOneMore(After(events).lists, After(list + before), After(list + content), start, before, e);
    }
  }

  lemma ItemIsMarked(r: Reading, outer: seq<Option<nat>>, start: Option<nat>, items: nat)
    requires InsideList(outer, r.lists, start, items, 0)
    ensures Step(r, Start(ItemTag)).place
            == Some(Place(ListItem, Some(if start.Some? then Decimal(start.value + items) + "." else "\U{2022}")))
  {
  }

  lemma NextItem(c: LinkContext, before: seq<Event>, outer: seq<Option<nat>>, start: Option<nat>, items: nat)
    requires InsideList(outer, After(before).lists, start, items, 0)
    ensures After(before + [Start(ItemTag)]).place
            == Some(Place(ListItem, Some(if start.Some? then Decimal(start.value + items) + "." else "\U{2022}")))
  {
    OneMoreEvent(c, before, Start(ItemTag));
    ItemIsMarked(After(before), outer, start, items);
  }

  /** So the next item of the list shows its number, or a bullet. */
  lemma ItemShowsNumber(c: LinkContext, events: seq<Event>, start: Option<nat>, content: seq<Event>)
    requires Within(content) && Balance(STARTS_LIST, ENDS_LIST, content) == 0
    ensures After(events + [Start(ListTag(start))] + content + [Start(ItemTag)]).place
            == Some(Place(ListItem, Some(if start.Some? then Decimal(start.value + DirectItems(content)) + "." else "\U{2022}")))
  {
    ItemsAreCounted(c, events, start, content);
    NextItem(c, events + [Start(ListTag(start))] + content, After(events).lists, start, DirectItems(content));
  }

  // ----- blocks -----

  /** What a page becomes by an element with some text: one more block of its own. */
  ghost function WithBlock(p: Page, text: string, style: Style, place: Place): Page {
    Page(Turn(p).done + [Paint(text, style, place, NO_SEAL)], [])
  }

  lemma Opens(c: LinkContext, r: Reading, p: Page, tag: Tag, place: Place)
    requires tag.ParagraphTag? || tag.HeadingTag? || tag.CodeBlockTag? || tag.ItemTag?
    requires StartStep(r, tag).place == Some(place)
    ensures Show(c, r, p, Start(tag)) == Turn(p)
    ensures Landing(Step(r, Start(tag))).place == Some(place) && StyleIn(Step(r, Start(tag)), false) == StyleIn(r, false)
  {
  }

  lemma Closes(c: LinkContext, r: Reading, p: Page, end: TagEnd)
    requires end.ParagraphEnd? || end.HeadingEnd? || end.CodeBlockEnd?
    ensures Show(c, r, p, End(end)) == Turn(p)
  {
  }

  lemma PaintedBlock(done: seq<seq<Glyph>>, text: string, style: Style, place: Place)
    requires text != ""
    ensures More([], text, style, place) == Paint(text, style, place, NO_SEAL)
    ensures Turn(Page(done, Paint(text, style, place, NO_SEAL))) == Page(done + [Paint(text, style, place, NO_SEAL)], [])
  {
    assert [] + Paint(text, style, place, NO_SEAL) == Paint(text, style, place, NO_SEAL);
  }

  lemma StartedBlock(c: LinkContext, r: Reading, p: Page, tag: Tag, text: string, end: TagEnd, place: Place)
    requires text != "" && (end.ParagraphEnd? || end.HeadingEnd? || end.CodeBlockEnd?)
    requires tag.ParagraphTag? || tag.HeadingTag? || tag.CodeBlockTag? || tag.ItemTag?
    requires StartStep(r, tag).place == Some(place)
    ensures ThreeMore(c, r, p, Start(tag), TextEvent(text), End(end)) == WithBlock(p, text, StyleIn(r, false), place)
  {
    var started := Step(r, Start(tag));
    Opens(c, r, p, tag, place);
    PaintedBlock(Turn(p).done, text, StyleIn(r, false), place);
    Closes(c, Step(started, TextEvent(text)), Show(c, started, Turn(p), TextEvent(text)), end);
  }

  /** At any point, a paragraph, heading or code with text becomes one more block of its kind;
      a paragraph inside quotes is a quote, headings and code are not. */
  lemma ElementsBecomeBlocks(c: LinkContext, r: Reading, p: Page, text: string)
    requires text != ""
    ensures ThreeMore(c, r, p, Start(HeadingTag), TextEvent(text), End(HeadingEnd))
            == WithBlock(p, text, Style(r.href, r.emphasis > 0, r.strong > 0, false), Place(Heading, None))
    ensures ThreeMore(c, r, p, Start(CodeBlockTag), TextEvent(text), End(CodeBlockEnd))
            == WithBlock(p, text, Style(r.href, r.emphasis > 0, r.strong > 0, false), Place(Code, None))
    ensures ThreeMore(c, r, p, Start(ParagraphTag), TextEvent(text), End(ParagraphEnd))
            == WithBlock(p, text, Style(r.href, r.emphasis > 0, r.strong > 0, false),
                         Place(if r.quotes > 0 then Quote else Paragraph, None))
  {
    StartedBlock(c, r, p, HeadingTag, text, HeadingEnd, Place(Heading, None));
    StartedBlock(c, r, p, CodeBlockTag, text, CodeBlockEnd, Place(Code, None));
    StartedBlock(c, r, p, ParagraphTag, text, ParagraphEnd, Place(if r.quotes > 0 then Quote else Paragraph, None));
  }

  lemma ItemIsEmpty(c: LinkContext, r: Reading, p: Page)
    ensures var s := Step(r, Start(ItemTag));
            StyleIn(s, false) == StyleIn(r, false) && s.quotes == r.quotes && Turn(Show(c, r, p, Start(ItemTag))) == Turn(p)
  {
  }

  /** An item whose text is in a paragraph of its own loses its marker: the item's block is
      empty when the paragraph starts, and empty blocks vanish. */
  lemma LooseItemLosesMarker(c: LinkContext, r: Reading, p: Page, text: string)
    requires text != ""
    ensures ThreeMore(c, Step(r, Start(ItemTag)), Show(c, r, p, Start(ItemTag)),
                      Start(ParagraphTag), TextEvent(text), End(ParagraphEnd))
            == WithBlock(p, text, StyleIn(r, false), Place(if r.quotes > 0 then Quote else Paragraph, None))
  {
    ItemIsEmpty(c, r, p);
    StartedBlock(c, Step(r, Start(ItemTag)), Show(c, r, p, Start(ItemTag)), ParagraphTag, text, ParagraphEnd,
                 Place(if r.quotes > 0 then Quote else Paragraph, None));
  }
}
