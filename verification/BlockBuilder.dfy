/** Markdown events laid out as blocks of styled runs. */
module BlockBuilder {
  import opened Wrappers
  import opened Text

  datatype Kind = Paragraph | Heading | ListItem | Quote | Code | Rule

  datatype Run = Run(text: string, href: Option<string>, emphasis: bool, strong: bool, code: bool,
                     host: Option<string>, senderMatch: Option<bool>)

  datatype Block = Block(kind: Kind, marker: Option<string>, runs: seq<Run>)

  datatype Tag =
    | ParagraphTag | HeadingTag | BlockQuoteTag | CodeBlockTag | ListTag(start: Option<nat>) | ItemTag
    | EmphasisTag | StrongTag | LinkTag(dest: string) | ImageTag | TableTag | TableHeadTag | TableRowTag
    | TableCellTag | OtherTag

  datatype TagEnd =
    | ParagraphEnd | HeadingEnd | BlockQuoteEnd | CodeBlockEnd | ListEnd | ItemEnd | EmphasisEnd | StrongEnd
    | LinkEnd | ImageEnd | TableEnd | TableHeadEnd | TableRowEnd | OtherEnd

  /** What the Markdown parser reports; any sequence is possible, balanced or not. */
  datatype Event =
    | Start(tag: Tag) | End(end: TagEnd) | TextEvent(text: string) | Html(text: string) | InlineHtml(text: string)
    | CodeEvent(text: string) | SoftBreak | HardBreak | RuleEvent | FootnoteReference(text: string)
    | TaskListMarker(checked: bool) | InlineMath(text: string) | DisplayMath(text: string)

  const CHECKED := "\U{2611} "
  const UNCHECKED := "\U{2610} "
  const BULLET := "\U{2022}"

  /** The text an event contributes. */
  function EventText(e: Event): string {
    match e
    case Start(TableCellTag) => " "
    case TextEvent(t) => t
    case Html(t) => t
    case InlineHtml(t) => t
    case CodeEvent(t) => t
    case SoftBreak => " "
    case HardBreak => "\n"
    case FootnoteReference(t) => t
    case TaskListMarker(checked) => if checked then CHECKED else UNCHECKED
    case InlineMath(t) => t
    case DisplayMath(t) => t
    case _ => ""
  }

  function Less(n: nat): nat { if n == 0 then 0 else n - 1 }

  datatype Style = Style(href: Option<string>, emphasis: bool, strong: bool, code: bool)

  /** The kind and the marker of a block. */
  datatype Place = Place(kind: Kind, marker: Option<string>)

  /** What a finished link tells about its destination. */
  datatype Seal = Seal(host: Option<string>, senderMatch: Option<bool>)

  const NO_SEAL := Seal(None, None)

  /** A character as a reader sees it, with the destination named behind it if there is one;
      or a rule across the page. */
  datatype Glyph = Glyph(c: char, style: Style, place: Place, seal: Seal) | RuleLine

  /** A text in one style, with its seal on the last character. */
  function Paint(text: string, style: Style, place: Place, seal: Seal): seq<Glyph> {
    seq(|text|, i requires 0 <= i < |text| => Glyph(text[i], style, place, if i == |text| - 1 then seal else NO_SEAL))
  }

  /** What is open at a point of the events: inline marks as depths that never go below zero,
      the target of the outermost open link if it is safe, the quotes and lists around, and the
      block that text would land in. */
  datatype Reading = Reading(emphasis: nat, strong: nat, links: nat, href: Option<string>,
                             quotes: nat, lists: seq<Option<nat>>, place: Option<Place>)

  const NOTHING_OPEN := Reading(0, 0, 0, None, 0, [], None)

  /** A paragraph inside a quote is a quote. */
  function Opened(r: Reading, kind: Kind, marker: Option<string>): Reading {
    r.(place := Some(Place(if r.quotes > 0 && kind == Paragraph then Quote else kind, marker)))
  }

  /** Text with no block open starts a paragraph. */
  function Landing(r: Reading): Reading {
    if r.place.Some? then r else Opened(r, Paragraph, None)
  }

  function Decimal(n: nat): string {
    if n < 10 then [('0' as int + n) as char] else Decimal(n / 10) + [('0' as int + n % 10) as char]
  }

  /** The innermost list is numbered. */
  predicate Numbered(lists: seq<Option<nat>>) { lists != [] && lists[|lists| - 1].Some? }

  function Item(r: Reading): Reading {
    var n := |r.lists| - 1;
    if Numbered(r.lists) then
      Opened(r.(lists := r.lists[n := Some(r.lists[n].value + 1)]), ListItem, Some(Decimal(r.lists[n].value) + "."))
    else Opened(r, ListItem, Some(BULLET))
  }

  function StartStep(r: Reading, tag: Tag): Reading {
    match tag
    case ParagraphTag => Opened(r, Paragraph, None)
    case HeadingTag => Opened(r, Heading, None)
    case BlockQuoteTag => r.(quotes := r.quotes + 1, place := None)
    case CodeBlockTag => Opened(r, Code, None)
    case ListTag(start) => r.(lists := r.lists + [start], place := None)
    case ItemTag => Item(r)
    case EmphasisTag => r.(emphasis := r.emphasis + 1)
    case StrongTag => r.(strong := r.strong + 1)
    case LinkTag(dest) => r.(links := r.links + 1, href := if r.links == 0 then SafeLinkTarget(dest) else r.href)
    case ImageTag => r
    case TableTag => Opened(r, Paragraph, None)
    case TableHeadTag => Opened(r, Paragraph, None)
    case TableRowTag => Opened(r, Paragraph, None)
    case TableCellTag => Landing(r)
    case OtherTag => r
  }

  function EndStep(r: Reading, end: TagEnd): Reading {
    match end
    case BlockQuoteEnd => r.(quotes := Less(r.quotes), place := None)
    case ListEnd => r.(lists := if r.lists == [] then [] else r.lists[..|r.lists| - 1], place := None)
    case EmphasisEnd => r.(emphasis := Less(r.emphasis))
    case StrongEnd => r.(strong := Less(r.strong))
    case LinkEnd => r.(links := Less(r.links), href := if r.links <= 1 then None else r.href)
    case ImageEnd => r
    case OtherEnd => r
    case _ => r.(place := None)
  }

  function Step(r: Reading, e: Event): Reading {
    match e
    case Start(tag) => StartStep(r, tag)
    case End(end) => EndStep(r, end)
    case RuleEvent => r.(place := None)
    case _ => if EventText(e) == "" then r else Landing(r)
  }

  function After(events: seq<Event>): Reading {
    if events == [] then NOTHING_OPEN else Step(After(events[..|events| - 1]), events[|events| - 1])
  }

  function StyleIn(r: Reading, code: bool): Style { Style(r.href, r.emphasis > 0, r.strong > 0, code) }

  /** A page: the finished blocks, none of them empty, and the open one. */
  datatype Page = Page(done: seq<seq<Glyph>>, open: seq<Glyph>)

  const BLANK := Page([], [])

  function Turn(p: Page): Page { Page(if p.open == [] then p.done else p.done + [p.open], []) }

  /** More text behind what is shown: in the same style it takes over a seal. */
  function More(open: seq<Glyph>, text: string, style: Style, place: Place): seq<Glyph> {
    var n := |open| - 1;
    if text == "" then open
    else if n >= 0 && open[n].Glyph? && open[n].style == style then
      open[n := open[n].(seal := NO_SEAL)] + Paint(text, style, place, open[n].seal)
    else open + Paint(text, style, place, NO_SEAL)
  }

  /** Seal the last character that leads to this target. */
  function SealLast(open: seq<Glyph>, target: string, seal: Seal): seq<Glyph> {
    if open == [] then [] else
      var n := |open| - 1;
      if open[n].Glyph? && open[n].style.href == Some(target) then open[n := open[n].(seal := seal)]
      else SealLast(open[..n], target, seal) + [open[n]]
  }

  /** How links are judged: the registrable domain of a target, and the sender's. */
  datatype LinkContext = LinkContext(hostOf: string -> Option<string>, senderDomain: Option<string>)

  function Matched(c: LinkContext, host: Option<string>): Option<bool> {
    if host.Some? && c.senderDomain.Some? then Some(host.value == c.senderDomain.value) else None
  }

  function SealOf(c: LinkContext, target: string): Seal { Seal(c.hostOf(target), Matched(c, c.hostOf(target))) }

  predicate StartsBlock(tag: Tag) {
    !(tag.EmphasisTag? || tag.StrongTag? || tag.LinkTag? || tag.ImageTag? || tag.TableCellTag? || tag.OtherTag?)
  }

  predicate EndsBlock(end: TagEnd) {
    !(end.EmphasisEnd? || end.StrongEnd? || end.LinkEnd? || end.ImageEnd? || end.OtherEnd?)
  }

  /** What text does to a page, under what is open. */
  function ShowText(r: Reading, p: Page, text: string, code: bool): Page {
    p.(open := More(p.open, text, StyleIn(r, code), Landing(r).place.value))
  }

  /** What one event does to a page. The end of the outermost link seals it. */
  function Show(c: LinkContext, r: Reading, p: Page, e: Event): Page {
    match e
    case Start(tag) => if StartsBlock(tag) then Turn(p) else ShowText(r, p, EventText(e), false)
    case End(LinkEnd) => if r.links <= 1 && r.href.Some? then p.(open := SealLast(p.open, r.href.value, SealOf(c, r.href.value))) else p
    case End(end) => if EndsBlock(end) then Turn(p) else p
    case RuleEvent => Page(Turn(p).done + [[RuleLine]], [])
    case _ => ShowText(r, p, EventText(e), e.CodeEvent?)
  }

  /** The page that the events describe. */
  function PageAfter(c: LinkContext, events: seq<Event>): Page {
    if events == [] then BLANK else
      var n := |events| - 1;
      Show(c, After(events[..n]), PageAfter(c, events[..n]), events[n])
  }

  function StyleOf(r: Run): Style { Style(r.href, r.emphasis, r.strong, r.code) }

  function PlaceOf(b: Block): Place { Place(b.kind, b.marker) }

  function RunText(r: Run, place: Place): seq<Glyph> { Paint(r.text, StyleOf(r), place, Seal(r.host, r.senderMatch)) }

  function RunTexts(runs: seq<Run>, place: Place): seq<Glyph> {
    if runs == [] then [] else RunTexts(runs[..|runs| - 1], place) + RunText(runs[|runs| - 1], place)
  }

  function BlockText(b: Block): seq<Glyph> {
    if b.kind == Rule then [RuleLine] else RunTexts(b.runs, PlaceOf(b))
  }

  /** What blocks show, block by block. */
  function BlockTexts(blocks: seq<Block>): seq<seq<Glyph>> {
    if blocks == [] then [] else BlockTexts(blocks[..|blocks| - 1]) + [BlockText(blocks[|blocks| - 1])]
  }

  lemma Join(a: seq<Glyph>, b: seq<Glyph>, c: seq<Glyph>)
    ensures a + (b + c) == a + b + c && a + [] == a
  {
  }

  // ----- links -----

  predicate SafeScheme(lower: string) {
    "https://" <= lower || "http://" <= lower || "mailto:" <= lower
  }

  function SafeLinkTarget(url: string): Option<string> {
    var trimmed := Trim(IsWhitespace, url);
    if SafeScheme(LowerAscii(trimmed)) then Some(trimmed) else None
  }

  /** A target that can be shown: no surrounding white space, and an http, https or mailto
      scheme in any case. */
  ghost predicate Safe(href: string) {
    Trimmed(IsWhitespace, href) && SafeScheme(LowerAscii(href))
  }

  lemma SafeLinkTargetIs(url: string)
    ensures SafeLinkTarget(url).Some? ==> Safe(SafeLinkTarget(url).value)
    ensures Safe(url) ==> SafeLinkTarget(url) == Some(url)
  {
    TrimIs(IsWhitespace, url);
    if Safe(url) {
      TrimUnique(IsWhitespace, "", url, "");
      assert "" + url + "" == url;
    }
  }

  // ----- what every block keeps -----

  predicate SameStyle(a: Run, b: Run) {
    a.href == b.href && a.emphasis == b.emphasis && a.strong == b.strong && a.code == b.code
  }

  ghost predicate GoodRun(c: LinkContext, r: Run) {
    && r.text != ""
    && (r.href.Some? ==> Safe(r.href.value))
    && (r.host.Some? ==> r.href.Some? && r.host == c.hostOf(r.href.value))
    && (r.senderMatch.Some? ==> r.host.Some? && c.senderDomain.Some? && r.senderMatch.value == (r.host == c.senderDomain))
  }

  ghost predicate GoodRuns(c: LinkContext, runs: seq<Run>) {
    runs == [] ||
      var n := |runs| - 1;
      GoodRuns(c, runs[..n]) && GoodRun(c, runs[n]) && (n > 0 ==> !SameStyle(runs[n - 1], runs[n]))
  }

  ghost predicate GoodBlock(c: LinkContext, b: Block) {
    GoodRuns(c, b.runs) && (b.kind == Rule ==> b.runs == [])
  }

  ghost predicate GoodBlocks(c: LinkContext, blocks: seq<Block>) {
    blocks == [] ||
      var b := blocks[|blocks| - 1];
      GoodBlocks(c, blocks[..|blocks| - 1]) && GoodBlock(c, b) && (b.runs == [] <==> b.kind == Rule)
  }

  lemma {:induction false} GoodRunsMean(c: LinkContext, runs: seq<Run>)
    ensures GoodRuns(c, runs) <==> (forall i :: 0 <= i < |runs| ==> GoodRun(c, runs[i]))
                                   && forall i, j :: 0 <= i < j < |runs| && j == i + 1 ==> !SameStyle(runs[i], runs[j])
    decreases |runs|
  {
    if runs != [] {
      var n := |runs| - 1;
      GoodRunsMean(c, runs[..n]);
      assert forall i :: 0 <= i < n ==> runs[i] == runs[..n][i];
    }
  }

  /** Every run of every block is good, neighbours differ in style, and only rules are empty. */
  lemma {:induction false} GoodBlocksMean(c: LinkContext, blocks: seq<Block>)
    ensures GoodBlocks(c, blocks) <==>
            forall i :: 0 <= i < |blocks| ==> GoodBlock(c, blocks[i]) && (blocks[i].runs == [] <==> blocks[i].kind == Rule)
    decreases |blocks|
  {
    if blocks != [] {
      var n := |blocks| - 1;
      GoodBlocksMean(c, blocks[..n]);
      assert forall i :: 0 <= i < n ==> blocks[i] == blocks[..n][i];
    }
  }

  // ----- how runs show -----

  lemma RunEnds(r: Run, place: Place)
    requires r.text != ""
    ensures var n := |r.text| - 1; var t := RunText(r, place);
            |t| == n + 1 && t[n] == Glyph(r.text[n], StyleOf(r), place, Seal(r.host, r.senderMatch))
  {
  }

  /** The last character shown is the last one of the last run. */
  lemma RunsEnd(runs: seq<Run>, place: Place)
    requires runs != [] && runs[|runs| - 1].text != ""
    ensures var r := runs[|runs| - 1]; var t := RunTexts(runs, place);
            t != [] && t[|t| - 1] == Glyph(r.text[|r.text| - 1], StyleOf(r), place, Seal(r.host, r.senderMatch))
  {
    RunEnds(runs[|runs| - 1], place);
  }

  lemma AppendRun(runs: seq<Run>, r: Run, place: Place)
    requires r.text != "" && r.host == None && r.senderMatch == None
    requires runs != [] ==> runs[|runs| - 1].text != "" && !SameStyle(runs[|runs| - 1], r)
    ensures RunTexts(runs + [r], place) == More(RunTexts(runs, place), r.text, StyleOf(r), place)
  {
    assert (runs + [r])[..|runs|] == runs;
    if runs != [] { RunsEnd(runs, place); }
  }

  /** A longer run shows as its text did, with the seal moved to the new end. */
  lemma LongerRun(r: Run, more: string, place: Place)
    requires r.text != "" && more != ""
    ensures var t := RunText(r, place); var n := |t| - 1;
            n >= 0 && RunText(r.(text := r.text + more), place)
                      == t[n := t[n].(seal := NO_SEAL)] + Paint(more, StyleOf(r), place, Seal(r.host, r.senderMatch))
  {
  }

  lemma UpdateInSecond(a: seq<Glyph>, t: seq<Glyph>, g: Glyph, more: seq<Glyph>)
    requires t != []
    ensures var n := |a + t| - 1; (a + t)[n := g] + more == a + (t[|t| - 1 := g] + more)
  {
  }

  lemma ExtendLastRun(runs: seq<Run>, more: string, place: Place)
    requires runs != [] && runs[|runs| - 1].text != "" && more != ""
    ensures var n := |runs| - 1;
            RunTexts(runs[n := runs[n].(text := runs[n].text + more)], place)
            == More(RunTexts(runs, place), more, StyleOf(runs[n]), place)
  {
    var n := |runs| - 1;
    var r, longer := runs[n], runs[n].(text := runs[n].text + more);
    var a, t := RunTexts(runs[..n], place), RunText(r, place);
    assert runs[n := longer][..n] == runs[..n];
    RunsEnd(runs, place);
    LongerRun(r, more, place);
    UpdateInSecond(a, t, t[|t| - 1].(seal := NO_SEAL), Paint(more, StyleOf(r), place, Seal(r.host, r.senderMatch)));
  }

  /** Characters that lead elsewhere stay as they are. */
  lemma {:induction false} SealSkips(a: seq<Glyph>, b: seq<Glyph>, target: string, seal: Seal)
    requires forall i :: 0 <= i < |b| ==> b[i].Glyph? && b[i].style.href != Some(target)
    ensures SealLast(a + b, target, seal) == SealLast(a, target, seal) + b
    decreases |b|
  {
    if b == [] {
      Join(a, [], []);
      Join(SealLast(a, target, seal), [], []);
    } else {
      var n := |b| - 1;
      assert (a + b)[..|a + b| - 1] == a + b[..n];
      SealSkips(a, b[..n], target, seal);
      assert b[..n] + [b[n]] == b;
      Join(SealLast(a, target, seal), b[..n], [b[n]]);
    }
  }

  lemma SealedRun(a: seq<Glyph>, r: Run, place: Place, target: string, sealed: Run)
    requires r.text != "" && r.href == Some(target) && sealed == r.(host := sealed.host, senderMatch := sealed.senderMatch)
    ensures SealLast(a + RunText(r, place), target, Seal(sealed.host, sealed.senderMatch)) == a + RunText(sealed, place)
  {
    var t, n := RunText(r, place), |r.text| - 1;
    var seal := Seal(sealed.host, sealed.senderMatch);
    RunEnds(r, place);
    assert (a + t)[|a + t| - 1] == t[n];
    assert RunText(sealed, place) == t[n := t[n].(seal := seal)];
  }

  /** Sealing the last run that leads to the target. */
  lemma {:induction false} SealedRuns(runs: seq<Run>, k: nat, sealed: Run, place: Place, target: string)
    requires k < |runs| && runs[k].text != "" && runs[k].href == Some(target)
    requires sealed == runs[k].(host := sealed.host, senderMatch := sealed.senderMatch)
    requires forall j :: k < j < |runs| ==> runs[j].href != Some(target)
    ensures RunTexts(runs[k := sealed], place) == SealLast(RunTexts(runs, place), target, Seal(sealed.host, sealed.senderMatch))
    decreases |runs|
  {
    var n, seal := |runs| - 1, Seal(sealed.host, sealed.senderMatch);
    if k < n {
      var before, last := RunTexts(runs[..n], place), RunText(runs[n], place);
      SealedRuns(runs[..n], k, sealed, place, target);
      assert runs[k := sealed][..n] == runs[..n][k := sealed];
      LeadsElsewhere(runs[n], place, target);
      SealSkips(before, last, target, seal);
    } else {
      assert runs[k := sealed][..n] == runs[..n];
      SealedRun(RunTexts(runs[..n], place), runs[n], place, target, sealed);
    }
  }

  lemma LeadsElsewhere(r: Run, place: Place, target: string)
    requires r.href != Some(target)
    ensures forall i :: 0 <= i < |RunText(r, place)| ==>
              RunText(r, place)[i].Glyph? && RunText(r, place)[i].style.href != Some(target)
  {
  }

  lemma {:induction false} NothingToSeal(runs: seq<Run>, place: Place, target: string, seal: Seal)
    requires forall j :: 0 <= j < |runs| ==> runs[j].href != Some(target)
    ensures SealLast(RunTexts(runs, place), target, seal) == RunTexts(runs, place)
    decreases |runs|
  {
    if runs != [] {
      var n := |runs| - 1;
      NothingToSeal(runs[..n], place, target, seal);
      SealSkips(RunTexts(runs[..n], place), RunText(runs[n], place), target, seal);
    }
  }

  lemma AppendBlock(blocks: seq<Block>, b: Block)
    ensures BlockTexts(blocks + [b]) == BlockTexts(blocks) + [BlockText(b)]
  {
    assert (blocks + [b])[..|blocks|] == blocks;
  }

  lemma AppendGoodBlock(c: LinkContext, blocks: seq<Block>, b: Block)
    requires GoodBlocks(c, blocks) && GoodBlock(c, b) && (b.runs == [] <==> b.kind == Rule)
    ensures GoodBlocks(c, blocks + [b])
  {
    assert (blocks + [b])[..|blocks|] == blocks;
  }

  lemma AppendGoodRun(c: LinkContext, b: Block, r: Run)
    requires GoodBlock(c, b) && GoodRun(c, r) && b.kind != Rule
    requires b.runs != [] ==> !SameStyle(b.runs[|b.runs| - 1], r)
    ensures GoodBlock(c, b.(runs := b.runs + [r]))
  {
    assert (b.runs + [r])[..|b.runs|] == b.runs;
  }

  lemma ExtendGoodRun(c: LinkContext, b: Block, more: string)
    requires GoodBlock(c, b) && b.runs != []
    ensures var n := |b.runs| - 1;
            GoodBlock(c, b.(runs := b.runs[n := b.runs[n].(text := b.runs[n].text + more)]))
  {
    var n := |b.runs| - 1;
    assert b.runs[n := b.runs[n].(text := b.runs[n].text + more)][..n] == b.runs[..n];
  }

  /** Exchanging a run for a good one of the same style. */
  lemma {:induction false} ExchangeGoodRun(c: LinkContext, runs: seq<Run>, k: nat, r: Run)
    requires GoodRuns(c, runs) && k < |runs| && GoodRun(c, r) && SameStyle(r, runs[k])
    ensures GoodRuns(c, runs[k := r])
    decreases |runs|
  {
    var n := |runs| - 1;
    if k < n {
      ExchangeGoodRun(c, runs[..n], k, r);
      assert runs[k := r][..n] == runs[..n][k := r];
    } else {
      assert runs[k := r][..n] == runs[..n];
    }
  }

  lemma {:induction false} RunAt(c: LinkContext, runs: seq<Run>, k: nat)
    requires GoodRuns(c, runs) && k < |runs|
    ensures GoodRun(c, runs[k])
    decreases |runs|
  {
    if k < |runs| - 1 { RunAt(c, runs[..|runs| - 1], k); }
  }

  lemma LinkGoodRun(c: LinkContext, b: Block, k: nat, host: Option<string>, matched: Option<bool>)
    requires GoodBlock(c, b) && k < |b.runs| && b.runs[k].href.Some? && host == c.hostOf(b.runs[k].href.value)
    requires matched == Matched(c, host)
    ensures GoodBlock(c, b.(runs := b.runs[k := b.runs[k].(host := host, senderMatch := matched)]))
  {
    RunAt(c, b.runs, k);
    ExchangeGoodRun(c, b.runs, k, b.runs[k].(host := host, senderMatch := matched));
  }

  /** The block with a text added: to its last run if the style is the same, else as a new
      run. */
  function WithText(b: Block, r: Run): Block {
    var n := |b.runs|;
    if n > 0 && SameStyle(b.runs[n - 1], r) then b.(runs := b.runs[n - 1 := b.runs[n - 1].(text := b.runs[n - 1].text + r.text)])
    else b.(runs := b.runs + [r])
  }

  lemma WithTextIs(c: LinkContext, b: Block, r: Run)
    requires GoodBlock(c, b) && GoodRun(c, r) && b.kind != Rule && r.host == None && r.senderMatch == None
    ensures GoodBlock(c, WithText(b, r)) && PlaceOf(WithText(b, r)) == PlaceOf(b)
    ensures BlockText(WithText(b, r)) == More(BlockText(b), r.text, StyleOf(r), PlaceOf(b))
  {
    if b.runs != [] && SameStyle(b.runs[|b.runs| - 1], r) {
      ExtendGoodRun(c, b, r.text);
      ExtendLastRun(b.runs, r.text, PlaceOf(b));
    } else {
      AppendGoodRun(c, b, r);
      AppendRun(b.runs, r, PlaceOf(b));
    }
  }

  function CurrentText(current: Option<Block>): seq<Glyph> {
    if current.Some? then BlockText(current.value) else []
  }

  /** What the blocks laid out so far and the open block keep: they show the page. */
  ghost predicate Laid(c: LinkContext, blocks: seq<Block>, current: Option<Block>, page: Page) {
    && GoodBlocks(c, blocks)
    && (current.Some? ==> GoodBlock(c, current.value))
    && BlockTexts(blocks) == page.done && CurrentText(current) == page.open
  }

  /** Closing keeps the open block unless it is empty and not a rule. */
  function Closed(blocks: seq<Block>, current: Option<Block>): seq<Block> {
    if current.Some? && (current.value.runs != [] || current.value.kind == Rule) then blocks + [current.value] else blocks
  }

  lemma ClosedIsLaid(c: LinkContext, blocks: seq<Block>, current: Option<Block>, page: Page)
    requires Laid(c, blocks, current, page)
    ensures Laid(c, Closed(blocks, current), None, Turn(page))
  {
    if Closed(blocks, current) != blocks {
      var b := current.value;
      AppendBlock(blocks, b);
      AppendGoodBlock(c, blocks, b);
      if b.kind != Rule { RunsEnd(b.runs, PlaceOf(b)); }
    }
  }

  lemma AddedIsLaid(c: LinkContext, blocks: seq<Block>, b: Block, page: Page, r: Run)
    requires Laid(c, blocks, Some(b), page) && GoodRun(c, r) && b.kind != Rule && r.host == None && r.senderMatch == None
    ensures Laid(c, blocks, Some(WithText(b, r)), page.(open := More(page.open, r.text, StyleOf(r), PlaceOf(b))))
    ensures PlaceOf(WithText(b, r)) == PlaceOf(b)
  {
    WithTextIs(c, b, r);
  }

  function Judged(b: Block, k: nat, host: Option<string>, matched: Option<bool>): Block
    requires k < |b.runs|
  {
    b.(runs := b.runs[k := b.runs[k].(host := host, senderMatch := matched)])
  }

  lemma JudgedIsLaid(c: LinkContext, blocks: seq<Block>, b: Block, page: Page, k: nat, target: string, host: Option<string>, matched: Option<bool>)
    requires Laid(c, blocks, Some(b), page) && k < |b.runs| && b.kind != Rule
    requires b.runs[k].href == Some(target) && Seal(host, matched) == SealOf(c, target)
    requires forall j :: k < j < |b.runs| ==> b.runs[j].href != Some(target)
    ensures Laid(c, blocks, Some(Judged(b, k, host, matched)), page.(open := SealLast(page.open, target, SealOf(c, target))))
    ensures PlaceOf(Judged(b, k, host, matched)) == PlaceOf(b)
  {
    RunAt(c, b.runs, k);
    SealedRuns(b.runs, k, b.runs[k].(host := host, senderMatch := matched), PlaceOf(b), target);
    LinkGoodRun(c, b, k, host, matched);
  }

  /** The last run with this target, searched from the end. */
  method LastRunOf(runs: seq<Run>, target: Option<string>) returns (r: Option<nat>)
    ensures r.Some? ==> r.value < |runs| && runs[r.value].href == target
    ensures forall j :: (if r.Some? then r.value else -1) < j < |runs| ==> runs[j].href != target
  {
    var k := |runs|;
    while k > 0
      invariant 0 <= k <= |runs|
      invariant forall j :: k <= j < |runs| ==> runs[j].href != target
    {
      k := k - 1;
      if runs[k].href == target { return Some(k); }
    }
    return None;
  }

  class Builder {
    const context: LinkContext
    var blocks: seq<Block>
    var current: Option<Block>
    var quoteDepth: nat
    var lists: seq<Option<nat>>
    var href: Option<string>
    var linkDepth: nat
    var emphasis: nat
    var strong: nat
    var imageDepth: nat
    /** The page shown so far. */
    ghost var page: Page

    ghost function Now(): Reading
      reads this
    {
      Reading(emphasis, strong, linkDepth, href, quoteDepth, lists, if current.Some? then Some(PlaceOf(current.value)) else None)
    }

    /** Between events no rule is open, and a link target only within a link. */
    ghost predicate Valid()
      reads this
    {
      && Laid(context, blocks, current, page)
      && (current.Some? ==> current.value.kind != Rule)
      && (href.Some? ==> Safe(href.value))
      && (linkDepth == 0 ==> href == None)
    }

    constructor (context: LinkContext)
      ensures Valid() && page == BLANK && Now() == NOTHING_OPEN && this.context == context
    {
      this.context := context;
      blocks, current, quoteDepth, lists, href := [], None, 0, [], None;
      linkDepth, emphasis, strong, imageDepth, page := 0, 0, 0, 0, BLANK;
    }

    method Close()
      requires Laid(context, blocks, current, page)
      modifies this`blocks, this`current, this`page
      ensures blocks == Closed(old(blocks), old(current)) && current == None
      ensures Laid(context, blocks, current, page) && page == Turn(old(page))
    {
      ClosedIsLaid(context, blocks, current, page);
      if current.Some? {
        var block := current.value;
        current := None;
        if block.runs != [] || block.kind == Rule { blocks := blocks + [block]; }
      }
      page := Turn(page);
    }

    method Open(kind: Kind, marker: Option<string>)
      requires Laid(context, blocks, current, page)
      modifies this`blocks, this`current, this`page
      ensures Now() == Opened(old(Now()), kind, marker) && blocks == Closed(old(blocks), old(current))
      ensures Laid(context, blocks, current, page) && current.Some? && current.value.runs == []
      ensures page == Turn(old(page)).(open := if kind == Rule then [RuleLine] else [])
    {
      Close();
      current := Some(Block(if quoteDepth > 0 && kind == Paragraph then Quote else kind, marker, []));
      page := page.(open := if kind == Rule then [RuleLine] else []);
    }

    /** Add a run to the open block, merging it with the last one if the style is the same. */
    method AddRun(run: Run)
      requires Valid() && current.Some? && GoodRun(context, run) && run.host == None && run.senderMatch == None
      modifies this`current, this`page
      ensures Valid() && current == Some(WithText(old(current.value), run)) && Now() == old(Now())
      ensures page == old(page).(open := More(old(page).open, run.text, StyleOf(run), PlaceOf(old(current.value))))
    {
      var block := current.value;
      AddedIsLaid(context, blocks, block, page, run);
      page := page.(open := More(page.open, run.text, StyleOf(run), PlaceOf(block)));
      var n := |block.runs|;
      if n > 0 && SameStyle(block.runs[n - 1], run) {
        current := Some(block.(runs := block.runs[n - 1 := block.runs[n - 1].(text := block.runs[n - 1].text + run.text)]));
      } else {
        current := Some(block.(runs := block.runs + [run]));
      }
    }

    method PushText(text: string, code: bool)
      requires Valid()
      modifies this`blocks, this`current, this`page
      ensures Valid() && page == ShowText(old(Now()), old(page), text, code)
      ensures Now() == if text == "" then old(Now()) else Landing(old(Now()))
    {
      if text == "" { return; }
      if current.None? { Open(Paragraph, None); }
      AddRun(Run(text, href, emphasis > 0, strong > 0, code, None, None));
    }

    /** Name a finished link's destination on its last run in the open block. */
    method FinishLink()
      requires Laid(context, blocks, current, page) && (current.Some? ==> current.value.kind != Rule)
      modifies this`current, this`href, this`page
      ensures Laid(context, blocks, current, page) && Now() == old(Now()).(href := None)
      ensures page == if old(href).None? then old(page)
                      else old(page).(open := SealLast(old(page).open, old(href).value, SealOf(context, old(href).value)))
    {
      if href.None? { return; }
      var target := href;
      href := None;
      var host := context.hostOf(target.value);
      var matched := if host.Some? && context.senderDomain.Some? then Some(host.value == context.senderDomain.value) else None;
      if current.None? { return; }
      var block := current.value;
      var found := LastRunOf(block.runs, target);
      if found.None? {
        NothingToSeal(block.runs, PlaceOf(block), target.value, SealOf(context, target.value));
        return;
      }
      JudgedIsLaid(context, blocks, block, page, found.value, target.value, host, matched);
      current := Some(Judged(block, found.value, host, matched));
      page := page.(open := SealLast(page.open, target.value, SealOf(context, target.value)));
    }

    method StartItem()
      requires Valid()
      modifies this`blocks, this`current, this`page, this`lists
      ensures Valid() && page == Turn(old(page)) && Now() == Item(old(Now()))
    {
      var marker := NextMarker();
      StartBlock(ListItem, Some(marker));
    }

    method NextMarker() returns (marker: string)
      requires Valid()
      modifies this`lists
      ensures Valid() && Opened(Now(), ListItem, Some(marker)) == Item(old(Now()))
    {
      marker := BULLET;
      if lists != [] && lists[|lists| - 1].Some? {
        var next := lists[|lists| - 1].value;
        marker := Decimal(next) + ".";
        lists := lists[|lists| - 1 := Some(next + 1)];
      }
    }

    method StartBlock(kind: Kind, marker: Option<string>)
      requires Valid() && kind != Rule
      modifies this`blocks, this`current, this`page
      ensures Valid() && page == Turn(old(page)) && Now() == Opened(old(Now()), kind, marker)
    {
      Open(kind, marker);
    }

    method CloseBlock()
      requires Valid()
      modifies this`blocks, this`current, this`page
      ensures Valid() && Now() == old(Now()).(place := None) && page == Turn(old(page))
    {
      Close();
    }

    method StartLink(dest: string)
      requires Valid()
      modifies this`linkDepth, this`href
      ensures Valid() && Now() == StartStep(old(Now()), LinkTag(dest))
    {
      linkDepth := linkDepth + 1;
      if linkDepth == 1 {
        SafeLinkTargetIs(dest);
        href := SafeLinkTarget(dest);
      }
    }

    method StartMark(tag: Tag)
      requires Valid() && (tag.EmphasisTag? || tag.StrongTag? || tag.LinkTag? || tag.ImageTag? || tag.OtherTag?)
      modifies this`emphasis, this`strong, this`linkDepth, this`href, this`imageDepth
      ensures Valid() && Now() == StartStep(old(Now()), tag)
    {
      match tag {
        case EmphasisTag => emphasis := emphasis + 1;
        case StrongTag => strong := strong + 1;
        case LinkTag(dest) => StartLink(dest);
        case ImageTag => imageDepth := imageDepth + 1;
        case OtherTag =>
      }
    }

    method StartContainer(tag: Tag)
      requires Valid() && (tag.BlockQuoteTag? || tag.ListTag?)
      modifies this`blocks, this`current, this`page, this`quoteDepth, this`lists
      ensures Valid() && Now() == StartStep(old(Now()), tag) && page == Turn(old(page))
    {
      CloseBlock();
      match tag {
        case BlockQuoteTag => quoteDepth := quoteDepth + 1;
        case ListTag(start) => lists := lists + [start];
      }
    }

    /** A tag that opens a block of its own. */
    method StartElement(tag: Tag)
      requires Valid() && StartsBlock(tag) && !tag.BlockQuoteTag? && !tag.ListTag?
      modifies this`blocks, this`current, this`page, this`lists
      ensures Valid() && Now() == StartStep(old(Now()), tag) && page == Turn(old(page))
    {
      match tag {
        case ParagraphTag => StartBlock(Paragraph, None);
        case HeadingTag => StartBlock(Heading, None);
        case CodeBlockTag => StartBlock(Code, None);
        case ItemTag => StartItem();
        case TableTag | TableHeadTag | TableRowTag => StartBlock(Paragraph, None);
      }
    }

    method StartTag(tag: Tag)
      requires Valid()
      modifies this
      ensures Valid() && Now() == StartStep(old(Now()), tag)
      ensures page == Show(context, old(Now()), old(page), Start(tag))
    {
      match tag {
        case TableCellTag => PushText(" ", false);
        case BlockQuoteTag | ListTag(_) => StartContainer(tag);
        case EmphasisTag | StrongTag | LinkTag(_) | ImageTag | OtherTag => StartMark(tag);
        case _ => StartElement(tag);
      }
    }

    method EndLink()
      requires Valid()
      modifies this`linkDepth, this`href, this`current, this`page
      ensures Valid() && Now() == EndStep(old(Now()), LinkEnd)
      ensures page == Show(context, old(Now()), old(page), End(LinkEnd))
    {
      linkDepth := Less(linkDepth);
      if linkDepth == 0 { FinishLink(); }
    }

    method EndMark(end: TagEnd)
      requires Valid() && (end.EmphasisEnd? || end.StrongEnd? || end.LinkEnd? || end.ImageEnd? || end.OtherEnd?)
      modifies this`emphasis, this`strong, this`linkDepth, this`href, this`imageDepth, this`current, this`page
      ensures Valid() && Now() == EndStep(old(Now()), end) && page == Show(context, old(Now()), old(page), End(end))
    {
      match end {
        case EmphasisEnd => emphasis := Less(emphasis);
        case StrongEnd => strong := Less(strong);
        case LinkEnd => EndLink();
        case ImageEnd => imageDepth := Less(imageDepth);
        case OtherEnd =>
      }
    }

    method EndContainer(end: TagEnd)
      requires Valid() && (end.BlockQuoteEnd? || end.ListEnd?)
      modifies this`blocks, this`current, this`page, this`quoteDepth, this`lists
      ensures Valid() && Now() == EndStep(old(Now()), end) && page == Turn(old(page))
    {
      CloseBlock();
      match end {
        case BlockQuoteEnd => quoteDepth := Less(quoteDepth);
        case ListEnd => lists := if lists == [] then [] else lists[..|lists| - 1];
      }
    }

    method EndTag(end: TagEnd)
      requires Valid()
      modifies this
      ensures Valid() && Now() == EndStep(old(Now()), end) && page == Show(context, old(Now()), old(page), End(end))
    {
      match end {
        case ParagraphEnd | HeadingEnd | CodeBlockEnd | ItemEnd | TableEnd | TableHeadEnd | TableRowEnd => CloseBlock();
        case BlockQuoteEnd | ListEnd => EndContainer(end);
        case _ => EndMark(end);
      }
    }

    method DrawRule()
      requires Valid()
      modifies this`blocks, this`current, this`page
      ensures Valid() && Now() == old(Now()).(place := None) && page == Show(context, old(Now()), old(page), RuleEvent)
    {
      Open(Rule, None);
      Close();
    }

    method PushEvent(e: Event)
      requires Valid() && !e.Start? && !e.End? && !e.RuleEvent?
      modifies this`blocks, this`current, this`page
      ensures Valid() && Now() == Step(old(Now()), e) && page == Show(context, old(Now()), old(page), e)
    {
      var text, code := "", false;
      match e {
        case TextEvent(t) => text := t;
        case Html(t) => text := t;
        case InlineHtml(t) => text := t;
        case CodeEvent(t) => text, code := t, true;
        case SoftBreak => text := " ";
        case HardBreak => text := "\n";
        case FootnoteReference(t) => text := t;
        case TaskListMarker(checked) => text := if checked then CHECKED else UNCHECKED;
        case InlineMath(t) => text := t;
        case DisplayMath(t) => text := t;
      }
      assert text == EventText(e) && code == e.CodeEvent?;
      PushText(text, code);
    }

    method Handle(e: Event)
      requires Valid()
      modifies this
      ensures Valid() && Now() == Step(old(Now()), e) && page == Show(context, old(Now()), old(page), e)
    {
      match e {
        case Start(tag) => StartTag(tag);
        case End(end) => EndTag(end);
        case RuleEvent => DrawRule();
        case _ => PushEvent(e);
      }
    }
  }

  lemma PageGrows(c: LinkContext, events: seq<Event>, i: nat)
    requires i < |events|
    ensures PageAfter(c, events[..i + 1]) == Show(c, After(events[..i]), PageAfter(c, events[..i]), events[i])
    ensures After(events[..i + 1]) == Step(After(events[..i]), events[i])
  {
    assert events[..i + 1][..i] == events[..i];
  }

  /** Whatever the events, the blocks show exactly the page the events describe: block by
      block, every character in order, in the style, block kind and marker open at its event,
      rules, and the destinations of finished links, named where the events say. Every run is
      non-empty, neighbours differ in style, only rules are empty, and every link is safe. */
  method MarkdownBlocks(events: seq<Event>, context: LinkContext) returns (blocks: seq<Block>)
    ensures BlockTexts(blocks) == Turn(PageAfter(context, events)).done
    ensures GoodBlocks(context, blocks)
  {
    var builder := new Builder(context);
    for i := 0 to |events|
      invariant builder.Valid() && builder.context == context && builder.page == PageAfter(context, events[..i])
      invariant builder.Now() == After(events[..i])
    {
      PageGrows(context, events, i);
      builder.Handle(events[i]);
    }
    assert events[..|events|] == events;
    builder.Close();
    blocks := builder.blocks;
  }
}
