/** Markdown documents with a frontmatter block: the splitter and the renderer. */
module Frontmatter {
  import opened Wrappers
  import opened Text

  datatype Doc = Doc(frontmatter: string, body: string)

  datatype Error = MissingFrontmatter | NotClosed

  const FENCE := "---"

  /** A line without any of its trailing break characters. */
  function Content(segment: string): string { TrimEnd(IsBreak, segment) }

  /** The lines up to the next fence from a line start on, and where the text after the fence
      begins. */
  datatype Block = Block(lines: seq<string>, bodyStart: nat)

  function ScanFrom(input: string, i: nat): Option<Block>
    requires i <= |input|
    decreases |input| - i
  {
    if i == |input| then None else
      var e := LineEnd(input, i);
      var content := Content(input[i..e]);
      if content == FENCE then Some(Block([], e))
      else match ScanFrom(input, e)
        case None => None
        case Some(rest) => Some(Block([content] + rest.lines, rest.bodyStart))
  }

  function JoinLf(lines: seq<string>): string {
    if lines == [] then "" else if |lines| == 1 then lines[0] else lines[0] + "\n" + JoinLf(lines[1..])
  }

  function Split(input: string): Result<Doc, Error> {
    if input == "" || Content(input[..LineEnd(input, 0)]) != FENCE then Err(MissingFrontmatter)
    else match ScanFrom(input, LineEnd(input, 0))
      case None => Err(NotClosed)
      case Some(block) =>
        if block.bodyStart <= |input| then Ok(Doc(JoinLf(block.lines), input[block.bodyStart..])) else Err(NotClosed)
  }

  method SplitFrontmatter(input: string) returns (r: Result<Doc, Error>)
    ensures r == Split(input)
  {
    if input == "" { return Err(MissingFrontmatter); }
    var offset := LineEnd(input, 0);
    if Content(input[..offset]) != FENCE { return Err(MissingFrontmatter); }
    ghost var start := offset;
    var lines: seq<string> := [];
    PrependOne([], "", ScanFrom(input, offset));
    while offset < |input|
      invariant offset <= |input|
      invariant ScanFrom(input, start) == Prepend(lines, ScanFrom(input, offset))
    {
      var e := LineEnd(input, offset);
      var content := Content(input[offset..e]);
      ScanIsInside(input, offset);
      PrependOne(lines, content, ScanFrom(input, e));
      if content == FENCE {
        assert lines + [] == lines;
        return Ok(Doc(JoinLf(lines), input[e..]));
      }
      lines := lines + [content];
      offset := e;
    }
    return Err(NotClosed);
  }

  ghost function Prepend(lines: seq<string>, block: Option<Block>): Option<Block> {
    if block.None? then None else Some(Block(lines + block.value.lines, block.value.bodyStart))
  }

  lemma PrependOne(lines: seq<string>, line: string, block: Option<Block>)
    ensures Prepend(lines, Prepend([line], block)) == Prepend(lines + [line], block)
    ensures Prepend([], block) == block
  {
    if block.Some? {
      assert lines + ([line] + block.value.lines) == lines + [line] + block.value.lines;
      assert [] + block.value.lines == block.value.lines;
    }
  }

  /** The body starts right after the first line that is a fence. */
  lemma {:induction false} ScanIsInside(input: string, i: nat)
    requires i <= |input|
    ensures ScanFrom(input, i).Some? ==> i < ScanFrom(input, i).value.bodyStart <= |input|
    decreases |input| - i
  {
    if i < |input| { ScanIsInside(input, LineEnd(input, i)); }
  }

  /** A fence line is three dashes and any number of break characters. */
  lemma FenceIs(segment: string)
    ensures Content(segment) == FENCE <==> |segment| >= 3 && segment[..3] == "---" && AllOf(IsBreak, segment[3..])
  {
    TrimEndIs(IsBreak, segment);
    if |segment| >= 3 && segment[..3] == "---" && AllOf(IsBreak, segment[3..]) {
      assert segment == segment[..3] + segment[3..];
      TrimEndOf(IsBreak, segment[..3], segment[3..]);
    }
  }

  ghost predicate IsFence(input: string, c: nat) {
    LineStart(input, c) && Content(input[c..LineEnd(input, c)]) == FENCE
  }

  lemma {:induction false} ScanFindsFirst(input: string, i: nat) returns (c: nat)
    requires i <= |input| && (i < |input| ==> LineStart(input, i)) && ScanFrom(input, i).Some?
    ensures i <= c && IsFence(input, c) && ScanFrom(input, i).value.bodyStart == LineEnd(input, c)
    ensures forall j :: i <= j < c ==> !IsFence(input, j)
    decreases |input| - i
  {
    var e := LineEnd(input, i);
    LineEndIs(input, i, e);
    if Content(input[i..e]) == FENCE {
      c := i;
    } else {
      c := ScanFindsFirst(input, e);
      forall j | i <= j < e
        ensures !IsFence(input, j)
      {
        assert i < j ==> input[j - 1] != '\n';
      }
    }
  }

  /** Whatever is accepted, the body is the exact text after the first fence line that
      follows the opening line. */
  lemma BodyIsSuffix(input: string) returns (c: nat)
    requires Split(input).Ok?
    ensures 0 < c && IsFence(input, 0) && IsFence(input, c) && forall j :: 0 < j < c ==> !IsFence(input, j)
    ensures LineEnd(input, c) <= |input| && Split(input).value.body == input[LineEnd(input, c)..]
  {
    var e := LineEnd(input, 0);
    LineEndIs(input, 0, e);
    assert input[0..e] == input[..e];
    c := ScanFindsFirst(input, e);
    forall j | 0 < j < e
      ensures !IsFence(input, j)
    {
      assert input[j - 1] != '\n';
    }
  }

  // ----- rendering -----

  function Render(yaml: string, body: string): string {
    var trimmed := TrimStart(IsWhitespace, body);
    "---\n" + TrimEnd(IsBreak, yaml) + "\n---\n" + trimmed + (if trimmed != "" && trimmed[|trimmed| - 1] == '\n' then "" else "\n")
  }

  /** The body as a rendered document keeps it. */
  function KeptBody(body: string): string {
    var trimmed := TrimStart(IsWhitespace, body);
    trimmed + (if trimmed != "" && trimmed[|trimmed| - 1] == '\n' then "" else "\n")
  }

  /** The kept body is the body from its first visible character on, with one line feed at
      its end unless it has one. */
  lemma KeptBodyIs(body: string, n: nat)
    requires n <= |body| && AllOf(IsWhitespace, body[..n]) && (n < |body| ==> !IsWhitespace(body[n]))
    ensures KeptBody(body) == body[n..] + if n < |body| && body[|body| - 1] == '\n' then "" else "\n"
  {
    assert body == body[..n] + body[n..];
    TrimStartOf(IsWhitespace, body[..n], body[n..]);
    if n < |body| { assert body[n..][0] == body[n]; }
  }

  /** The lines of a text, as splitting at every line feed gives them. */
  function SplitLf(s: string): (r: seq<string>)
    ensures r != []
  {
    if s == "" then [""]
    else if s[0] == '\n' then [""] + SplitLf(s[1..])
    else var rest := SplitLf(s[1..]); [[s[0]] + rest[0]] + rest[1..]
  }

  lemma {:induction false} SplitLfIs(s: string)
    ensures JoinLf(SplitLf(s)) == s
    ensures forall i :: 0 <= i < |SplitLf(s)| ==> '\n' !in SplitLf(s)[i]
  {
    if s != "" {
      SplitLfIs(s[1..]);
      var rest := SplitLf(s[1..]);
      if s[0] == '\n' {
        assert ([""] + rest)[1..] == rest;
      } else {
        var all := [[s[0]] + rest[0]] + rest[1..];
        assert all[1..] == rest[1..];
        if |rest| > 1 { Assoc([s[0]], rest[0], "\n" + JoinLf(rest[1..])); }
      }
    }
  }

  /** Lines, each followed by a line feed. */
  function Terminated(lines: seq<string>): string {
    if lines == [] then "" else lines[0] + "\n" + Terminated(lines[1..])
  }

  lemma {:induction false} TerminatedIsJoined(lines: seq<string>)
    requires lines != []
    ensures Terminated(lines) == JoinLf(lines) + "\n"
  {
    if |lines| > 1 {
      TerminatedIsJoined(lines[1..]);
      Assoc(lines[0] + "\n", JoinLf(lines[1..]), "\n");
    }
  }

  function Contents(lines: seq<string>): seq<string> {
    if lines == [] then [] else [Content(lines[0])] + Contents(lines[1..])
  }

  ghost predicate NoLineFeeds(lines: seq<string>) {
    forall i :: 0 <= i < |lines| ==> '\n' !in lines[i]
  }

  /** A line read from position `i` on, when what is there starts with it. */
  lemma LineAhead(input: string, i: nat, line: string, post: string) returns (e: nat)
    requires i < |input| && input[i..] == line + ("\n" + post) && '\n' !in line
    ensures e == i + |line| + 1 == LineEnd(input, i) && input[i..e] == line + "\n" && input[e..] == post
  {
    e := i + |line| + 1;
    var ahead := input[i..];
    assert forall k :: 0 <= k < |line| ==> ahead[k] == line[k];
    assert ahead[|line|] == '\n';
    assert forall k :: i <= k < e - 1 ==> input[k] == ahead[k - i];
    assert input[e - 1] == ahead[|line|];
    LineEndIs(input, i, e);
    assert input[i..e] == ahead[..|line| + 1];
    assert input[e..] == ahead[|line| + 1..];
    assert line + ("\n" + post) == (line + "\n") + post;
  }

  lemma ContentOf(line: string)
    ensures Content(line + "\n") == Content(line)
    ensures line != "" && !IsBreak(line[|line| - 1]) ==> Content(line) == line
    ensures Content(FENCE) == FENCE
  {
    TrimEndOf(IsBreak, line, "\n");
  }

  lemma ScanStep(input: string, i: nat, line: string, post: string) returns (e: nat)
    requires i < |input| && input[i..] == line + ("\n" + post) && '\n' !in line
    ensures i < e <= |input| && input[e..] == post
    ensures ScanFrom(input, i) == if Content(line) == FENCE then Some(Block([], e))
                                  else Prepend([Content(line)], ScanFrom(input, e))
  {
    e := LineAhead(input, i, line, post);
    ContentOf(line);
  }

  /** The block is these lines, unless one of them is itself taken for the fence. */
  ghost predicate Scanned(block: Option<Block>, contents: seq<string>, bodyStart: int) {
    && block.Some?
    && (FENCE !in contents ==> block.value.lines == contents && block.value.bodyStart == bodyStart)
    && (FENCE in contents ==> block.value.bodyStart < bodyStart)
  }

  lemma ScannedPrepend(block: Option<Block>, content: string, contents: seq<string>, bodyStart: int)
    requires Scanned(block, contents, bodyStart) && content != FENCE
    ensures Scanned(Prepend([content], block), [content] + contents, bodyStart)
  {
  }

  /** Scanning lines up to a closing fence. */
  lemma {:induction false} ScanLines(input: string, i: nat, lines: seq<string>, tail: string, body: string)
    requires tail == FENCE + ("\n" + body) && NoLineFeeds(lines)
    requires i <= |input| && input[i..] == Terminated(lines) + tail
    ensures Scanned(ScanFrom(input, i), Contents(lines), |input| - |body|)
    decreases |lines|
  {
    assert |input[i..]| == |Terminated(lines)| + |tail|;
    if lines == [] {
      Assoc("", tail, "");
      ContentOf("");
      var e := ScanStep(input, i, FENCE, body);
    } else {
      var line, rest := lines[0], Terminated(lines[1..]);
      var e := ScanTerminated(input, i, line, rest, tail);
      if Content(line) != FENCE {
        ScanLines(input, e, lines[1..], tail, body);
        ScannedPrepend(ScanFrom(input, e), Content(line), Contents(lines[1..]), |input| - |body|);
      } else {
        assert |input[e..]| == |rest| + |tail|;
        assert Contents(lines)[0] == FENCE;
      }
    }
  }

  lemma ScanTerminated(input: string, i: nat, line: string, rest: string, tail: string) returns (e: nat)
    requires i < |input| && input[i..] == line + "\n" + rest + tail && '\n' !in line
    ensures i < e <= |input| && input[e..] == rest + tail
    ensures ScanFrom(input, i) == if Content(line) == FENCE then Some(Block([], e))
                                  else Prepend([Content(line)], ScanFrom(input, e))
  {
    Assoc(line + "\n", rest, tail);
    Assoc(line, "\n", rest + tail);
    e := ScanStep(input, i, line, rest + tail);
  }

  // ----- round trips -----

  /** No line reads as a fence and none ends in a carriage return. */
  ghost predicate Clean(lines: seq<string>) {
    forall i :: 0 <= i < |lines| ==> lines[i] != FENCE && (lines[i] != "" ==> lines[i][|lines[i]| - 1] != '\r')
  }

  lemma CleanFirst(line: string)
    requires '\n' !in line
    ensures Content(line) == line && line != FENCE <==> Clean([line])
    ensures Content(line) == line ==> (line != "" ==> line[|line| - 1] != '\r')
  {
    TrimEndIs(IsBreak, line);
    ContentOf(line);
    assert [line][0] == line;
    if line != "" { assert line[|line| - 1] in line; }
  }

  lemma {:induction false} ContentsOfClean(lines: seq<string>)
    requires NoLineFeeds(lines)
    ensures Clean(lines) <==> Contents(lines) == lines && FENCE !in lines
  {
    if lines != [] {
      ContentsOfClean(lines[1..]);
      CleanFirst(lines[0]);
      assert lines == [lines[0]] + lines[1..];
      assert Clean(lines) <==> Clean([lines[0]]) && Clean(lines[1..]);
    }
  }

  lemma JoinedLength(line: string, lines: seq<string>)
    ensures |JoinLf([line] + lines)| == |line| + if lines == [] then 0 else 1 + |JoinLf(lines)|
  {
    assert ([line] + lines)[1..] == lines;
  }

  /** Dropping trailing breaks line by line shortens the joined text, unless there are none. */
  lemma {:induction false} JoinShrinks(lines: seq<string>)
    ensures |JoinLf(Contents(lines))| <= |JoinLf(lines)|
    ensures |JoinLf(Contents(lines))| == |JoinLf(lines)| ==> Contents(lines) == lines
  {
    if lines != [] {
      JoinShrinks(lines[1..]);
      TrimEndIs(IsBreak, lines[0]);
      JoinedLength(lines[0], lines[1..]);
      JoinedLength(Content(lines[0]), Contents(lines[1..]));
      assert lines == [lines[0]] + lines[1..];
    }
  }

  /** A rendered document is its fence lines around terminated lines, then the kept body. */
  lemma RenderIs(yaml: string, body: string)
    ensures Render(yaml, body)
            == Fenced(SplitLf(TrimEnd(IsBreak, yaml)), KeptBody(body))
  {
    var t := TrimEnd(IsBreak, yaml);
    SplitLfIs(t);
    TerminatedIsJoined(SplitLf(t));
  }

  lemma LastPart(a: string, b: string, last: string)
    requires |last| <= |b| && b[|b| - |last|..] == last
    ensures (a + b)[|a + b| - |last|..] == last
  {
  }

  function Fenced(lines: seq<string>, body: string): string {
    FENCE + ("\n" + (Terminated(lines) + (FENCE + ("\n" + body))))
  }

  lemma FencedEndsInBody(lines: seq<string>, body: string)
    ensures var input := Fenced(lines, body); |body| <= |input| && input[|input| - |body|..] == body
  {
    LastPart("\n", body, body);
    LastPart(FENCE, "\n" + body, body);
    LastPart(Terminated(lines), FENCE + ("\n" + body), body);
    LastPart("\n", Terminated(lines) + (FENCE + ("\n" + body)), body);
    LastPart(FENCE, "\n" + (Terminated(lines) + (FENCE + ("\n" + body))), body);
  }

  lemma OpeningOf(input: string, rest: string) returns (e: nat)
    requires input == FENCE + ("\n" + rest)
    ensures input != "" && e == LineEnd(input, 0) && Content(input[..e]) == FENCE && input[e..] == rest
  {
    assert input[0..] == input;
    e := LineAhead(input, 0, FENCE, rest);
    ContentOf(FENCE);
    assert input[0..e] == input[..e];
  }

  lemma SplitOfFenced(lines: seq<string>, body: string)
    requires NoLineFeeds(lines)
    ensures var r := Split(Fenced(lines, body));
            && r.Ok?
            && (FENCE !in Contents(lines) ==> r == Ok(Doc(JoinLf(Contents(lines)), body)))
            && (FENCE in Contents(lines) ==> |r.value.body| > |body|)
  {
    var tail := FENCE + ("\n" + body);
    var input := Fenced(lines, body);
    var e := OpeningOf(input, Terminated(lines) + tail);
    ScanLines(input, e, lines, tail, body);
    ScanIsInside(input, e);
    FencedEndsInBody(lines, body);
  }

  /** Splitting a rendered document gives back the trimmed frontmatter and the kept body
      exactly when no line of the trimmed frontmatter is a fence or ends in a carriage
      return. */
  lemma SplitOfRender(yaml: string, body: string)
    ensures var t := TrimEnd(IsBreak, yaml);
            Split(Render(yaml, body)) == Ok(Doc(t, KeptBody(body))) <==> Clean(SplitLf(t))
  {
    var t := TrimEnd(IsBreak, yaml);
    var lines := SplitLf(t);
    RenderIs(yaml, body);
    SplitLfIs(t);
    SplitOfFenced(lines, KeptBody(body));
    ContentsOfClean(lines);
    JoinShrinks(lines);
  }

  /** A document of one frontmatter line, character by character: written from untidy parts,
      and read. */
  lemma OneLineDocument(line: string, body: string)
    requires line != "" && line != "---" && '\n' !in line && line[|line| - 1] != '\r'
    requires body != "" && !IsWhitespace(body[0]) && !IsWhitespace(body[|body| - 1])
    ensures Render(line + "\r\n\n", "\n \n" + body) == "---\n" + line + "\n---\n" + body + "\n"
    ensures Split("---\n" + line + "\n---\n" + body + "\n") == Ok(Doc(line, body + "\n"))
  {
    var yaml, untidy := line + "\r\n\n", "\n \n" + body;
    TrimEndOf(IsBreak, line, "\r\n\n");
    KeptBodyIs(untidy, 3);
    assert untidy[3..] == body && Render(yaml, untidy) == "---\n" + line + "\n---\n" + KeptBody(untidy);
    Assoc("---\n" + line + "\n---\n", body, "\n");
    SplitLfOfLine(line, "");
    SplitOfRender(yaml, untidy);
  }

  /** Frontmatter that is a fence line does not survive: it closes itself. */
  lemma FenceIsLost()
    ensures Split(Render(FENCE, "")) != Ok(Doc(FENCE, KeptBody("")))
    ensures !Clean(SplitLf(TrimEnd(IsBreak, FENCE))) && TrimEnd(IsBreak, FENCE) == FENCE
  {
    SplitLfOfLine(FENCE, "");
    ContentOf(FENCE);
    assert SplitLf(FENCE)[0] == FENCE;
    SplitOfRender(FENCE, "");
  }

  /** Rendering what a rendered document keeps gives the same document. */
  lemma RenderIsStable(yaml: string, body: string)
    ensures Render(TrimEnd(IsBreak, yaml), KeptBody(body)) == Render(yaml, body)
  {
    var t, trimmed := TrimEnd(IsBreak, yaml), TrimStart(IsWhitespace, body);
    TrimEndIs(IsBreak, yaml);
    TrimStartIs(IsWhitespace, body);
    if trimmed == "" {
      TrimStartOf(IsWhitespace, "\n", "");
      assert "\n" + "" == "\n" && KeptBody(body) == "\n";
    } else {
      var kept := KeptBody(body);
      assert kept[0] == trimmed[0];
      assert TrimStart(IsWhitespace, kept) == kept && kept[|kept| - 1] == '\n' && kept + "" == kept;
    }
  }

  lemma {:induction false} SplitLfOfLine(line: string, rest: string)
    requires '\n' !in line
    ensures SplitLf(line + "\n" + rest) == [line] + SplitLf(rest)
    ensures SplitLf(line) == [line]
  {
    var s := line + "\n" + rest;
    if line == "" {
      assert s[1..] == rest;
    } else {
      assert s[1..] == line[1..] + "\n" + rest;
      SplitLfOfLine(line[1..], rest);
      assert [line[0]] + line[1..] == line;
    }
  }

  lemma {:induction false} SplitLfOfJoin(lines: seq<string>)
    requires lines != [] && NoLineFeeds(lines)
    ensures SplitLf(JoinLf(lines)) == lines
  {
    if |lines| == 1 {
      SplitLfOfLine(lines[0], "");
    } else {
      SplitLfOfLine(lines[0], JoinLf(lines[1..]));
      SplitLfOfJoin(lines[1..]);
    }
  }

  /** What one more character at the end adds to the lines. */
  function WithLast(lines: seq<string>, c: char): seq<string>
    requires lines != []
  {
    var n := |lines| - 1;
    if c == '\n' then lines + [""] else lines[..n] + [lines[n] + [c]]
  }

  lemma LastBehind(line: string, lines: seq<string>, c: char)
    requires lines != []
    ensures WithLast([line] + lines, c) == [line] + WithLast(lines, c)
  {
  }

  lemma LastInFirst(first: char, lines: seq<string>, c: char)
    requires lines != []
    ensures var t := WithLast(lines, c);
            WithLast([[first] + lines[0]] + lines[1..], c) == [[first] + t[0]] + t[1..]
  {
    if |lines| == 1 { Assoc([first], lines[0], [c]); }
  }

  lemma {:induction false} SplitLfOfLast(s: string, c: char)
    ensures SplitLf(s + [c]) == WithLast(SplitLf(s), c)
  {
    if s == "" {
      assert s + [c] == [c] && [c][1..] == "" && SplitLf("") == [""] && [c] + "" == [c];
    } else {
      assert (s + [c])[1..] == s[1..] + [c];
      SplitLfOfLast(s[1..], c);
      if s[0] == '\n' { LastBehind("", SplitLf(s[1..]), c); } else { LastInFirst(s[0], SplitLf(s[1..]), c); }
    }
  }

  lemma CleanWithoutLast(lines: seq<string>, c: char)
    requires lines != [] && IsBreak(c)
    ensures Clean(WithLast(lines, c)) ==> c == '\n' && Clean(lines)
  {
    var n := |lines| - 1;
    var t := WithLast(lines, c);
    if c == '\n' {
      assert forall i :: 0 <= i <= n ==> t[i] == lines[i];
    } else {
      assert t[n] == lines[n] + [c];
      assert t[n][|t[n]| - 1] == '\r';
    }
  }

  /** Trimming trailing breaks from clean text leaves clean text. */
  lemma {:induction false} TrimKeepsClean(s: string)
    requires Clean(SplitLf(s))
    ensures Clean(SplitLf(TrimEnd(IsBreak, s)))
  {
    if s != "" && IsBreak(s[|s| - 1]) {
      var shorter := s[..|s| - 1];
      SplitLfOfLast(shorter, s[|s| - 1]);
      assert shorter + [s[|s| - 1]] == s;
      CleanWithoutLast(SplitLf(shorter), s[|s| - 1]);
      TrimKeepsClean(shorter);
    }
  }

  /** The lines of a block are neither fences nor end in break characters. */
  lemma {:induction false} ScannedLinesAreClean(input: string, i: nat)
    requires i <= |input| && ScanFrom(input, i).Some?
    ensures var lines := ScanFrom(input, i).value.lines; Clean(lines) && NoLineFeeds(lines)
    decreases |input| - i
  {
    var e := LineEnd(input, i);
    var content := Content(input[i..e]);
    if content != FENCE {
      ScannedLinesAreClean(input, e);
      LineEndIs(input, i, e);
      TrimEndIs(IsBreak, input[i..e]);
    }
  }

  /** Any accepted document can be rendered again: the result splits into the same
      frontmatter without its trailing breaks, and the body as rendering keeps it. */
  lemma RenderOfSplit(input: string)
    requires Split(input).Ok?
    ensures var doc := Split(input).value;
            Split(Render(doc.frontmatter, doc.body)) == Ok(Doc(TrimEnd(IsBreak, doc.frontmatter), KeptBody(doc.body)))
  {
    var doc := Split(input).value;
    var start := LineEnd(input, 0);
    var lines := ScanFrom(input, start).value.lines;
    ScannedLinesAreClean(input, start);
    if lines != [] { SplitLfOfJoin(lines); }
    TrimKeepsClean(doc.frontmatter);
    SplitOfRender(doc.frontmatter, doc.body);
  }

  // ----- nothing is lost -----

  /** What ends a line: carriage returns, and a line feed unless the text ends there. */
  ghost predicate Ends(b: string, atEnd: bool) {
    && (forall k :: 0 <= k < |b| - 1 ==> b[k] == '\r')
    && (b == "" || b[|b| - 1] == '\r' ==> atEnd) && (b != "" ==> IsBreak(b[|b| - 1]))
  }

  /** Lines, each followed by its own end. */
  function Woven(lines: seq<string>, ends: seq<string>): string
    requires |lines| == |ends|
  {
    if lines == [] then "" else lines[0] + ends[0] + Woven(lines[1..], ends[1..])
  }

  lemma ContentAndEnd(line: string) returns (end: string)
    requires line != "" && forall k :: 0 <= k < |line| - 1 ==> line[k] != '\n'
    ensures line == Content(line) + end && Ends(end, line[|line| - 1] != '\n')
  {
    var t := Content(line);
    TrimEndIs(IsBreak, line);
    end := line[|t|..];
    assert line == t + end;
    assert forall k :: 0 <= k < |end| ==> end[k] == line[|t| + k];
  }

  lemma LineAndEnd(input: string, i: nat) returns (end: string)
    requires i < |input|
    ensures var e := LineEnd(input, i);
            && input[i..] == Content(input[i..e]) + end + input[e..]
            && Ends(end, e == |input|)
  {
    var e := LineEnd(input, i);
    var line := input[i..e];
    LineEndIs(input, i, e);
    assert forall k :: 0 <= k < |line| ==> line[k] == input[i + k];
    end := ContentAndEnd(line);
    assert input[i..] == line + input[e..];
  }

  /** The text from `i` on is the lines of the block, each with its end, then the fence with
      its end, and the rest. */
  lemma {:induction false} ScanIsLossless(input: string, i: nat) returns (ends: seq<string>, close: string)
    requires i <= |input| && ScanFrom(input, i).Some?
    ensures var block := ScanFrom(input, i).value;
            && block.bodyStart <= |input| && |ends| == |block.lines|
            && input[i..] == Woven(block.lines, ends) + (FENCE + close) + input[block.bodyStart..]
            && (forall k :: 0 <= k < |ends| ==> Ends(ends[k], false)) && Ends(close, block.bodyStart == |input|)
    decreases |input| - i
  {
    var e := LineEnd(input, i);
    var content := Content(input[i..e]);
    ScanIsInside(input, i);
    var end := LineAndEnd(input, i);
    if content == FENCE {
      ends, close := [], end;
      Assoc("", FENCE + close, input[e..]);
    } else {
      var more;
      more, close := ScanIsLossless(input, e);
      ends := [end] + more;
      LineAndRest(input, i, e, content, end, more, close, ScanFrom(input, e).value);
    }
  }

  lemma LineAndRest(input: string, i: nat, e: nat, content: string, end: string, more: seq<string>, close: string, rest: Block)
    requires i < e < |input| && rest.bodyStart <= |input| && |more| == |rest.lines|
    requires input[i..] == content + end + input[e..] && Ends(end, e == |input|)
    requires input[e..] == Woven(rest.lines, more) + (FENCE + close) + input[rest.bodyStart..]
    requires forall k :: 0 <= k < |more| ==> Ends(more[k], false)
    ensures input[i..] == Woven([content] + rest.lines, [end] + more) + (FENCE + close) + input[rest.bodyStart..]
    ensures forall k :: 0 <= k <= |more| ==> Ends(([end] + more)[k], false)
  {
    var head, t, fence, body := content + end, Woven(rest.lines, more), FENCE + close, input[rest.bodyStart..];
    assert ([content] + rest.lines)[1..] == rest.lines && ([end] + more)[1..] == more;
    Assoc(head, t + fence, body);
    Assoc(head, t, fence);
  }

  /** Of an accepted document only the ends of the lines are lost: it is the opening fence,
      the frontmatter's lines, the closing fence, each with an end of carriage returns and a
      line feed, and the body. Only the closing line may end with the text instead. */
  lemma SplitIsLossless(input: string) returns (open: string, lines: seq<string>, ends: seq<string>, close: string)
    requires Split(input).Ok?
    ensures var doc := Split(input).value;
            && doc.frontmatter == JoinLf(lines) && |ends| == |lines|
            && input == FENCE + open + (Woven(lines, ends) + (FENCE + close) + doc.body)
            && Ends(open, false) && (forall k :: 0 <= k < |ends| ==> Ends(ends[k], false)) && Ends(close, doc.body == "")
  {
    var e := LineEnd(input, 0);
    assert input[0..] == input && input[0..e] == input[..e];
    open := LineAndEnd(input, 0);
    lines := ScanFrom(input, e).value.lines;
    ends, close := ScanIsLossless(input, e);
    ScanIsInside(input, e);
  }
}
