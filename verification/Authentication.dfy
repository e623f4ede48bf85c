/** Authentication-Results headers: two comment-aware scanners and a fold over all segments. */
module Authentication {
  import opened Text

  // ----- comments -----

  /** The comment depth after a character; it never goes below zero. */
  function Deeper(c: char, depth: nat): nat {
    if c == '(' then depth + 1 else if c == ')' && depth > 0 then depth - 1 else depth
  }

  function Depth(s: string, depth: nat): nat {
    if s == "" then depth else Depth(s[1..], Deeper(s[0], depth))
  }

  /** The text outside comments. */
  function Bare(s: string, depth: nat): string {
    if s == "" then ""
    else (if s[0] != '(' && s[0] != ')' && depth == 0 then [s[0]] else "") + Bare(s[1..], Deeper(s[0], depth))
  }

  /** The text inside comments, without the parentheses. */
  function Comment(s: string, depth: nat): string {
    if s == "" then ""
    else (if s[0] != '(' && s[0] != ')' && depth > 0 then [s[0]] else "") + Comment(s[1..], Deeper(s[0], depth))
  }

  method StripComments(s: string) returns (bare: string, comment: string)
    ensures bare == Bare(s, 0) && comment == Comment(s, 0)
  {
    bare, comment := "", "";
    var depth: nat := 0;
    assert s[0..] == s;
    for i := 0 to |s|
      invariant bare + Bare(s[i..], depth) == Bare(s, 0)
      invariant comment + Comment(s[i..], depth) == Comment(s, 0)
    {
      ghost var rest := s[i..];
      assert rest[0] == s[i] && rest[1..] == s[i + 1..];
      Assoc(bare, if s[i] != '(' && s[i] != ')' && depth == 0 then [s[i]] else "", Bare(rest[1..], Deeper(s[i], depth)));
      Assoc(comment, if s[i] != '(' && s[i] != ')' && depth > 0 then [s[i]] else "", Comment(rest[1..], Deeper(s[i], depth)));
      if s[i] == '(' {
        depth := depth + 1;
      } else if s[i] == ')' {
        depth := if depth > 0 then depth - 1 else 0;
      } else if depth > 0 {
        comment := comment + [s[i]];
      } else {
        bare := bare + [s[i]];
      }
    }
    assert s[|s|..] == "";
    Assoc(bare, "", "");
    Assoc(comment, "", "");
  }

  lemma {:induction false} ScanAppend(a: string, b: string, depth: nat)
    ensures Depth(a + b, depth) == Depth(b, Depth(a, depth))
    ensures Bare(a + b, depth) == Bare(a, depth) + Bare(b, Depth(a, depth))
    ensures Comment(a + b, depth) == Comment(a, depth) + Comment(b, Depth(a, depth))
    decreases |a|
  {
    if a == "" {
      Assoc("", "", b);
      Assoc("", "", Bare(b, depth));
      Assoc("", "", Comment(b, depth));
    } else {
      var d := Deeper(a[0], depth);
      assert (a + b)[1..] == a[1..] + b;
      ScanAppend(a[1..], b, d);
      Assoc(if a[0] != '(' && a[0] != ')' && depth == 0 then [a[0]] else "", Bare(a[1..], d), Bare(b, Depth(a[1..], d)));
      Assoc(if a[0] != '(' && a[0] != ')' && depth > 0 then [a[0]] else "", Comment(a[1..], d), Comment(b, Depth(a[1..], d)));
    }
  }

  // ----- segments -----

  /** The position of the first `;` outside comments, or the length. */
  function FirstTop(s: string, depth: nat): (k: nat)
    ensures k <= |s|
  {
    if s == "" || (s[0] == ';' && depth == 0) then 0 else 1 + FirstTop(s[1..], Deeper(s[0], depth))
  }

  /** All pieces between top-level semicolons; there is always a last one. */
  function Pieces(s: string): (r: seq<string>)
    ensures r != []
    decreases |s|
  {
    var k := FirstTop(s, 0);
    if k == |s| then [s] else [s[..k]] + Pieces(s[k + 1..])
  }

  /** The pieces, without a blank last one. */
  function Segments(s: string): seq<string> {
    var p := Pieces(s);
    if Trim(IsWhitespace, p[|p| - 1]) == "" then p[..|p| - 1] else p
  }

  /** The pieces of what remains when `current` has already been read of the next one. */
  function PiecesWith(current: string, rest: string, depth: nat): seq<string> {
    var k := FirstTop(rest, depth);
    if k == |rest| then [current + rest] else [current + rest[..k]] + Pieces(rest[k + 1..])
  }

  lemma StepPieces(current: string, rest: string, depth: nat)
    requires rest != ""
    ensures PiecesWith(current, rest, depth)
            == if rest[0] == ';' && depth == 0 then [current] + PiecesWith("", rest[1..], 0)
               else PiecesWith(current + [rest[0]], rest[1..], Deeper(rest[0], depth))
  {
    if rest[0] == ';' && depth == 0 {
      assert current + rest[..0] == current && rest[0 + 1..] == rest[1..];
      var k := FirstTop(rest[1..], 0);
      assert "" + rest[1..] == rest[1..] && "" + rest[1..][..k] == rest[1..][..k];
    } else {
      var d := Deeper(rest[0], depth);
      var k := FirstTop(rest[1..], d);
      assert current + rest == current + [rest[0]] + rest[1..];
      assert current + rest[..k + 1] == current + [rest[0]] + rest[1..][..k];
      if k < |rest[1..]| { assert rest[k + 2..] == rest[1..][k + 1..]; }
    }
  }

  method SplitTopLevelSemicolons(header: string) returns (out: seq<string>)
    ensures out == Segments(header)
  {
    out := [];
    var current := "";
    var depth: nat := 0;
    NothingRead(header);
    for i := 0 to |header|
      invariant out + PiecesWith(current, header[i..], depth) == Pieces(header)
    {
      var c := header[i];
      assert header[i..][0] == c && header[i..][1..] == header[i + 1..];
      StepPieces(current, header[i..], depth);
      if c == ';' && depth == 0 {
        Regroup(out, current, PiecesWith("", header[i + 1..], 0));
        out := out + [current];
        current := "";
      } else {
        current := current + [c];
        depth := Deeper(c, depth);
      }
    }
    AllRead(header, current, depth);
    if Trim(IsWhitespace, current) != "" {
      out := out + [current];
    }
  }

  lemma PiecesOfWhole(s: string)
    ensures PiecesWith("", s, 0) == Pieces(s)
  {
    var k := FirstTop(s, 0);
    if k == |s| {
      Assoc("", "", s);
    } else {
      Assoc("", "", s[..k]);
    }
  }

  lemma NothingRead(header: string)
    ensures [] + PiecesWith("", header[0..], 0) == Pieces(header)
  {
    assert header[0..] == header;
    var p := PiecesWith("", header, 0);
    PiecesOfWhole(header);
    assert [] + p == p;
  }

  lemma AllRead(header: string, current: string, depth: nat)
    ensures PiecesWith(current, header[|header|..], depth) == [current]
  {
    assert header[|header|..] == "";
    Assoc(current, "", "");
  }

  lemma Regroup(out: seq<string>, current: string, rest: seq<string>)
    ensures out + ([current] + rest) == out + [current] + rest
  {
  }

  lemma {:induction false} FirstTopIs(s: string, depth: nat)
    ensures var k := FirstTop(s, depth);
            && ';' !in Bare(s[..k], depth)
            && (k < |s| ==> s[k] == ';' && Depth(s[..k], depth) == 0)
    decreases |s|
  {
    var k := FirstTop(s, depth);
    if k > 0 {
      FirstTopIs(s[1..], Deeper(s[0], depth));
      assert s[..k][1..] == s[1..][..k - 1];
    }
  }

  function Join(parts: seq<string>): string {
    if parts == [] then "" else if |parts| == 1 then parts[0] else parts[0] + ";" + Join(parts[1..])
  }

  function BareOf(parts: seq<string>): seq<string> {
    if parts == [] then [] else [Bare(parts[0], 0)] + BareOf(parts[1..])
  }

  function CommentsOf(parts: seq<string>): string {
    if parts == [] then "" else Comment(parts[0], 0) + CommentsOf(parts[1..])
  }

  /** The two scanners agree: stripped one by one, the pieces contain no `;`, and joined by
      `;` they are the stripped header; their comments are the header's comments. */
  lemma {:induction false} ScannersAgree(s: string)
    ensures Join(BareOf(Pieces(s))) == Bare(s, 0) && CommentsOf(Pieces(s)) == Comment(s, 0)
    ensures forall i :: 0 <= i < |Pieces(s)| ==> ';' !in Bare(Pieces(s)[i], 0)
    decreases |s|
  {
    var k := FirstTop(s, 0);
    FirstTopIs(s, 0);
    if k == |s| {
      assert s[..k] == s;
      Assoc(Comment(s, 0), "", "");
    } else {
      var first, rest := s[..k], s[k + 1..];
      ScannersAgree(rest);
      assert s == first + ([s[k]] + rest);
      ScanAppend(first, [s[k]] + rest, 0);
      assert ([s[k]] + rest)[1..] == rest;
      assert BareOf(Pieces(s))[1..] == BareOf(Pieces(rest)) && BareOf(Pieces(rest)) != [];
      Assoc(Bare(first, 0), ";", Bare(rest, 0));
      Assoc("", "", Comment(rest, 0));
    }
  }

  /** The segments are the pieces, but for one blank piece at the end. */
  lemma SegmentsArePieces(s: string)
    ensures || Segments(s) == Pieces(s)
            || exists tail :: Pieces(s) == Segments(s) + [tail] && AllOf(IsWhitespace, tail) && Bare(tail, 0) == tail
  {
    var p := Pieces(s);
    var tail := p[|p| - 1];
    if Trim(IsWhitespace, tail) == "" {
      BlankText(tail);
      assert p == p[..|p| - 1] + [tail];
    }
  }

  lemma BlankText(s: string)
    requires Trim(IsWhitespace, s) == ""
    ensures AllOf(IsWhitespace, s) && Bare(s, 0) == s
  {
    TrimIs(IsWhitespace, s);
    var k := |s| - |TrimStart(IsWhitespace, s)|;
    assert s == s[..k] + s[k..];
    assert AllOf(IsWhitespace, s) by {
      forall i | 0 <= i < |s|
        ensures IsWhitespace(s[i])
      {
        if i < k { assert s[..k][i] == s[i]; } else { assert s[k + 0..][i - k] == s[i]; }
      }
    }
    BlankBare(s);
  }

  lemma {:induction false} BlankBare(s: string)
    requires AllOf(IsWhitespace, s)
    ensures Bare(s, 0) == s
  {
    if s != "" {
      assert IsWhitespace(s[0]);
      BlankBare(s[1..]);
      assert s == [s[0]] + s[1..];
    }
  }
}
